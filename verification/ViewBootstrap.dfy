/** The one-shot view-login bootstrap of the four-byte receive hook, its receives coming
    one after the other. `ViewLoginInterleavings` runs the same hook on many threads. */
module ViewBootstrap {
  import opened Bytes
  import opened LobbyPackets

  const PEEK_ATTEMPTS := 500

  type Login = s: seq<byte> | |s| == 152 witness Zeros(152)
  type ResponseBuffer = s: seq<byte> | |s| == 40 witness Zeros(40)

  /** What a peek returns, and the response buffer after it. */
  datatype Peek = Peek(count: int, bytes: ResponseBuffer)

  /** One call of the hook: the guest's receive size, the socket's peer if the descriptor
      names a socket, and what that socket will answer. */
  datatype Receive = Receive(size: uint32, peer: Option<uint16>, sent: int, peeks: nat -> Peek, ups: nat -> bool)

  datatype Bootstrap = Bootstrap(enabled: bool, requestSent: bool, ready: bool, failed: bool,
                                 port: uint16, packet: Login)

  function Armed(port: uint16, login: Login): Bootstrap {
    Bootstrap(true, false, false, false, port, login)
  }

  predicate Gated(s: Bootstrap) {
    s.enabled && !s.ready && !s.failed
  }

  predicate Matches(port: uint16, c: Receive) {
    c.size == 4 && c.peer == Some(port)
  }

  predicate Passes(md5: seq<byte> -> Digest, c: Receive, i: nat) {
    c.peeks(i).count == KEY_RESPONSE_SIZE && IsCompleteKeyResponse(md5, c.ups(i), c.peeks(i).bytes)
  }

  predicate Closes(c: Receive, i: nat) {
    c.peeks(i).count == 0
  }

  /** A complete key response shows within the attempts and before the peer closes. */
  predicate Answered(md5: seq<byte> -> Digest, c: Receive) {
    exists i: nat :: i < PEEK_ATTEMPTS && Passes(md5, c, i) && forall j: nat :: j < i ==> !Closes(c, j)
  }

  /** The injection of the login, when this receive won the exchange. */
  function Injected(s: Bootstrap, c: Receive): Bootstrap {
    if s.requestSent then s
    else if c.sent == |s.packet| then s.(requestSent := true, packet := Zeros(152))
    else s.(failed := true)
  }

  function Handled(md5: seq<byte> -> Digest, s: Bootstrap, c: Receive): Bootstrap {
    if !Matches(s.port, c) || !Gated(s) then s
    else
      var injected := Injected(s, c);
      if !injected.requestSent then injected
      else if Answered(md5, c) then injected.(ready := true)
      else injected.(failed := true)
  }

  /** The buffers this receive hands to the socket's send. */
  function SendCalls(s: Bootstrap, c: Receive): seq<seq<byte>> {
    if Matches(s.port, c) && Gated(s) && !s.requestSent then [s.packet] else []
  }

  function HandledAll(md5: seq<byte> -> Digest, s: Bootstrap, cs: seq<Receive>): Bootstrap
    decreases |cs|
  {
    if cs == [] then s else HandledAll(md5, Handled(md5, s, cs[0]), cs[1..])
  }

  function AllSendCalls(md5: seq<byte> -> Digest, s: Bootstrap, cs: seq<Receive>): seq<seq<byte>>
    decreases |cs|
  {
    if cs == [] then [] else SendCalls(s, cs[0]) + AllSendCalls(md5, Handled(md5, s, cs[0]), cs[1..])
  }

  /** The first matching receive settles an armed bootstrap one way or the other: ready
      exactly when the whole login went out and the answer showed. The packet is wiped
      exactly when it went out whole, and a failed send leaves the request unsent. */
  lemma FirstMatchDecides(md5: seq<byte> -> Digest, port: uint16, login: Login, c: Receive)
    requires c.size == 4 && c.peer == Some(port)
    ensures var r := Handled(md5, Armed(port, login), c);
            && r.ready != r.failed
            && (r.ready <==> c.sent == 152 && Answered(md5, c))
            && (r.requestSent <==> c.sent == 152)
            && r.packet == (if c.sent == 152 then Zeros(152) else login)
            && r.enabled && r.port == port
  {
  }

  /** What counts as an answer, in numbers: within 500 peeks one of 40 bytes that is a
      complete key response, and no peek of none before it. */
  lemma AnsweredExactly(md5: seq<byte> -> Digest, c: Receive)
    ensures Answered(md5, c) <==>
            exists i: nat :: i < 500 && c.peeks(i).count == 40 && IsCompleteKeyResponse(md5, c.ups(i), c.peeks(i).bytes)
              && forall j: nat :: j < i ==> c.peeks(j).count != 0
  {
    if Answered(md5, c) {
      var i: nat :| i < PEEK_ATTEMPTS && Passes(md5, c, i) && forall j: nat :: j < i ==> !Closes(c, j);
      forall j: nat | j < i ensures c.peeks(j).count != 0 {
        assert !Closes(c, j);
      }
    }
    if i: nat :|
      && i < 500 && c.peeks(i).count == 40 && IsCompleteKeyResponse(md5, c.ups(i), c.peeks(i).bytes)
      && forall j: nat :: j < i ==> c.peeks(j).count != 0
    {
      assert Passes(md5, c, i);
    }
  }

  /** A receive of another size, or on another socket, does nothing. */
  lemma OthersDoNothing(md5: seq<byte> -> Digest, s: Bootstrap, c: Receive)
    requires c.size != 4 || c.peer != Some(s.port)
    ensures Handled(md5, s, c) == s && SendCalls(s, c) == []
  {
  }

  /** A settled bootstrap stays as it is and sends nothing more. */
  lemma {:induction false} SettledIsAbsorbing(md5: seq<byte> -> Digest, s: Bootstrap, cs: seq<Receive>)
    requires !s.enabled || s.ready || s.failed
    ensures HandledAll(md5, s, cs) == s && AllSendCalls(md5, s, cs) == []
  {
    if cs != [] {
      SettledIsAbsorbing(md5, s, cs[1..]);
    }
  }

  /** So a whole run is its first matching receive: everything before it leaves the
      bootstrap armed, nothing after it counts, and the login is handed over once. */
  lemma {:induction false} RunIsItsFirstMatch(md5: seq<byte> -> Digest, port: uint16, login: Login, cs: seq<Receive>, k: nat)
    requires k < |cs| && cs[k].size == 4 && cs[k].peer == Some(port)
    requires forall i :: 0 <= i < k ==> cs[i].size != 4 || cs[i].peer != Some(port)
    ensures HandledAll(md5, Armed(port, login), cs) == Handled(md5, Armed(port, login), cs[k])
    ensures AllSendCalls(md5, Armed(port, login), cs) == [login]
  {
    if k == 0 {
      FirstMatchDecides(md5, port, login, cs[0]);
      SettledIsAbsorbing(md5, Handled(md5, Armed(port, login), cs[0]), cs[1..]);
    } else {
      assert !Matches(port, cs[0]);
      RunIsItsFirstMatch(md5, port, login, cs[1..], k - 1);
    }
  }

  lemma {:induction false} RunWithoutMatchStaysArmed(md5: seq<byte> -> Digest, port: uint16, login: Login, cs: seq<Receive>)
    requires forall i :: 0 <= i < |cs| ==> cs[i].size != 4 || cs[i].peer != Some(port)
    ensures HandledAll(md5, Armed(port, login), cs) == Armed(port, login)
    ensures AllSendCalls(md5, Armed(port, login), cs) == []
  {
    if cs != [] {
      assert !Matches(port, cs[0]);
      RunWithoutMatchStaysArmed(md5, port, login, cs[1..]);
    }
  }

  class DirectViewBootstrap {
    var enabled: bool
    var requestSent: bool
    var ready: bool
    var failed: bool
    var port: uint16
    const packet: array<byte>

    ghost predicate Valid() {
      packet.Length == VIEW_LOGIN_SIZE
    }

    ghost function View(): Bootstrap
      requires Valid()
      reads this, packet
    {
      Bootstrap(enabled, requestSent, ready, failed, port, packet[..])
    }

    constructor ()
      ensures Valid() && fresh(packet)
      ensures View() == Bootstrap(false, false, false, false, 0, Zeros(152))
    {
      enabled, requestSent, ready, failed, port := false, false, false, false, 0;
      packet := new byte[VIEW_LOGIN_SIZE](_ => 0);
    }

    /** `login` is None for a null pointer. */
    method Configure(viewPort: uint16, login: Option<seq<byte>>) returns (ok: bool)
      requires Valid()
      modifies this, packet
      ensures ok == (viewPort != 0 && login.Some? && |login.value| == VIEW_LOGIN_SIZE)
      ensures View() == if ok then Armed(viewPort, login.value) else old(View())
    {
      if viewPort == 0 || login.None? || |login.value| != packet.Length {
        return false;
      }
      CopyInto(login.value, packet, 0);
      port := viewPort;
      requestSent := false;
      ready := false;
      failed := false;
      enabled := true;
      return true;
    }

    /** `sends` are the buffers handed to the socket. */
    method OnFourByteReceive(md5: seq<byte> -> Digest, c: Receive) returns (sends: seq<seq<byte>>)
      requires Valid()
      modifies this, packet
      ensures View() == Handled(md5, old(View()), c)
      ensures sends == SendCalls(old(View()), c)
    {
      sends := [];
      if c.size != 4 {
        return;
      }
      if enabled && !ready && !failed {
        if c.peer == Some(port) {
          var alreadySent := requestSent;
          requestSent := true;
          if !alreadySent {
            sends := [packet[..]];
            SendLogin(c);
          }
          if requestSent {
            var answered := AwaitAnswer(md5, c);
            if answered {
              ready := true;
            } else {
              failed := true;
            }
          }
        }
      }
    }

    /** The winner of the exchange settles the send. */
    method SendLogin(c: Receive)
      requires Valid() && requestSent
      modifies this`requestSent, this`failed, packet
      ensures View() == Injected(old(View()).(requestSent := false), c)
    {
      if c.sent != packet.Length {
        requestSent := false;
        failed := true;
      } else {
        forall i | 0 <= i < packet.Length { packet[i] := 0; }
        assert packet[..] == Zeros(152);
      }
    }

    method AwaitAnswer(md5: seq<byte> -> Digest, c: Receive) returns (answered: bool)
      ensures answered <==> Answered(md5, c)
    {
      var attempt := 0;
      while attempt < PEEK_ATTEMPTS
        invariant attempt <= PEEK_ATTEMPTS
        invariant forall j: nat :: j < attempt ==> !Passes(md5, c, j) && !Closes(c, j)
      {
        var peeked := c.peeks(attempt);
        if peeked.count == KEY_RESPONSE_SIZE && IsCompleteKeyResponse(md5, c.ups(attempt), peeked.bytes) {
          assert Passes(md5, c, attempt);
          return true;
        }
        if peeked.count == 0 {
          assert Closes(c, attempt);
          return false;
        }
        assert !Passes(md5, c, attempt) && !Closes(c, attempt);
        attempt := attempt + 1;
      }
      return false;
    }
  }
}
