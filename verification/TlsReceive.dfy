/** Reassembly of the TLS login response: receive, decrypt, keep the extra bytes, and go
    back into the handshake loop for post-handshake messages. The security provider is an
    oracle; the properties are about the buffering around it. */
module TlsReceive {
  import opened Bytes

  const RECEIVE_CHUNK := 16384
  const MAX_ENCRYPTED := 1048576
  const MAX_RESPONSE := 16384

  datatype AuthError = TlsFailed | IoFailed | ResponseTooLarge | MalformedResponse

  /** DecryptMessage on a buffer. `used` counts the bytes that are not left as EXTRA. */
  datatype Decrypted = Incomplete | Record(plain: seq<byte>, used: nat) | PostHandshake(used: nat) | Rejected

  /** InitializeSecurityContext on a buffer, with its reply sent. */
  datatype Handshaken = NeedsMore | Done(used: nat) | Continue(used: nat) | Refused

  /** The provider, as functions of all bytes it has consumed and the buffer shown to it,
      and the JSON library's completeness test. */
  datatype Provider = Provider(
    decrypt: (seq<byte>, seq<byte>) -> Decrypted,
    handshake: (seq<byte>, seq<byte>) -> Handshaken,
    completeJson: seq<byte> -> bool)

  /** The provider's contract. It looks at a message only as far as the message goes, so
      later bytes change nothing; it consumes what it was given; and no message is longer
      than the buffer can hold (records are bounded by section 5.2 of RFC 8446). */
  ghost predicate Contract(tls: Provider) {
    && (forall c, b, x :: tls.decrypt(c, b) != Incomplete ==> tls.decrypt(c, b + x) == tls.decrypt(c, b))
    && (forall c, b, x :: tls.handshake(c, b) != NeedsMore ==> tls.handshake(c, b + x) == tls.handshake(c, b))
    && Consumes(tls)
    && (forall c, b :: tls.decrypt(c, b) == Incomplete ==> |b| <= MAX_ENCRYPTED - RECEIVE_CHUNK)
    && (forall c, b :: tls.handshake(c, b) == NeedsMore ==> |b| <= MAX_ENCRYPTED - RECEIVE_CHUNK)
  }

  /** What it reports as used lies in the buffer; records and handshake steps use some. */
  ghost predicate Consumes(tls: Provider) {
    && (forall c, b :: DecryptedOk(tls.decrypt(c, b), b))
    && (forall c, b :: HandshakenOk(tls.handshake(c, b), b))
  }

  predicate DecryptedOk(d: Decrypted, b: seq<byte>) {
    match d
    case Record(_, used) => 0 < used <= |b|
    case PostHandshake(used) => used <= |b|
    case _ => true
  }

  predicate HandshakenOk(h: Handshaken, b: seq<byte>) {
    match h
    case Done(used) => 0 < used <= |b|
    case Continue(used) => 0 < used <= |b|
    case _ => true
  }

  /** A post-handshake report always leaves its message as EXTRA bytes. */
  ghost predicate LeavesMessage(tls: Provider) {
    forall c, b :: tls.decrypt(c, b).PostHandshake? ==> tls.decrypt(c, b).used < |b|
  }

  ghost predicate AllPieces(pieces: seq<seq<byte>>) {
    forall i :: 0 <= i < |pieces| ==> 0 < |pieces[i]| <= RECEIVE_CHUNK
  }

  function Concat(pieces: seq<seq<byte>>): seq<byte> {
    if pieces == [] then [] else pieces[0] + Concat(pieces[1..])
  }

  // ----------------------------------------------- the loops, as functions

  /** A connection between two provider calls. */
  datatype Link = Link(consumed: seq<byte>, buffer: seq<byte>, pieces: seq<seq<byte>>) {
    /** Bytes in the buffer and still to come. */
    function Rest(): seq<byte> {
      buffer + Concat(pieces)
    }

    /** Everything received so far and still to come: no step changes it. */
    function Stream(): seq<byte> {
      consumed + Rest()
    }

    /** Consume the first `n` bytes of the buffer. */
    function Drop(n: nat): (r: Link)
      requires n <= |buffer|
      ensures r.Stream() == Stream() && |r.Rest()| == |Rest()| - n
    {
      var r := Link(consumed + buffer[..n], buffer[n..], pieces);
      assert buffer[..n] + (buffer[n..] + Concat(pieces)) == buffer + Concat(pieces);
      assert (consumed + buffer[..n]) + r.Rest() == consumed + (buffer[..n] + r.Rest());
      r
    }

    /** One successful receive. */
    function Fill(): (r: Link)
      requires pieces != []
      ensures r.Stream() == Stream() && r.Rest() == Rest()
    {
      Link(consumed, buffer + pieces[0], pieces[1..])
    }

    predicate CanReceive() {
      |buffer| <= MAX_ENCRYPTED - RECEIVE_CHUNK && pieces != []
    }
  }

  /** The handshake loop: None when it fails. */
  function Continued(tls: Provider, link: Link): (r: Option<Link>)
    ensures r.Some? ==> |r.value.Rest()| < |link.Rest()| && r.value.Stream() == link.Stream()
    decreases |link.Rest()|, |link.pieces|
  {
    if link.buffer == [] then
      if link.CanReceive() then Continued(tls, link.Fill()) else None
    else
      var h := tls.handshake(link.consumed, link.buffer);
      match h
      case NeedsMore => if link.CanReceive() then Continued(tls, link.Fill()) else None
      case Done(used) => if 0 < used <= |link.buffer| then Some(link.Drop(used)) else None
      case Continue(used) => if 0 < used <= |link.buffer| then Continued(tls, link.Drop(used)) else None
      case Refused => None
  }

  /** One turn of the handshake loop, by what the provider answered. */
  lemma OneTurn(tls: Provider, link: Link)
    requires Consumes(tls) && link.buffer != []
    ensures var h := tls.handshake(link.consumed, link.buffer);
            && HandshakenOk(h, link.buffer)
            && (h.NeedsMore? ==> Continued(tls, link) == if link.CanReceive() then Continued(tls, link.Fill()) else None)
            && (h.Refused? ==> Continued(tls, link) == None)
            && (h.Done? ==> Continued(tls, link) == Some(link.Drop(h.used)))
            && (h.Continue? ==> Continued(tls, link) == Continued(tls, link.Drop(h.used)))
  {
  }

  lemma EmptyTurn(tls: Provider, link: Link)
    requires link.buffer == []
    ensures Continued(tls, link) == if link.CanReceive() then Continued(tls, link.Fill()) else None
  {
  }

  function AtEnd(plaintext: seq<byte>): AuthError {
    if plaintext == [] then IoFailed else MalformedResponse
  }

  /** The receive loop. */
  function Received(tls: Provider, link: Link, plaintext: seq<byte>): Result<seq<byte>, AuthError>
    decreases |link.Rest()|, |link.pieces|
  {
    if link.buffer == [] then
      if link.CanReceive() then Received(tls, link.Fill(), plaintext) else Err(AtEnd(plaintext))
    else
      var d := tls.decrypt(link.consumed, link.buffer);
      match d
      case Incomplete => if link.CanReceive() then Received(tls, link.Fill(), plaintext) else Err(IoFailed)
      case Rejected => Err(TlsFailed)
      case PostHandshake(used) =>
        if used >= |link.buffer| then Err(TlsFailed)
        else
          var next := Continued(tls, link.Drop(used));
          if next.None? then Err(TlsFailed) else Received(tls, next.value, plaintext)
      case Record(plain, used) =>
        var more := plaintext + plain;
        if |more| > MAX_RESPONSE then Err(ResponseTooLarge)
        else if tls.completeJson(more) then Ok(more)
        else if 0 < used <= |link.buffer| then Received(tls, link.Drop(used), more)
        else Err(TlsFailed)
  }

  // ------------------------------------------------ the stream, uncut

  /** How many bytes of an uncut stream the handshake loop consumes. */
  function Settled(tls: Provider, consumed: seq<byte>, rest: seq<byte>): (r: Option<nat>)
    ensures r.Some? ==> 0 < r.value <= |rest|
    decreases |rest|
  {
    if rest == [] then None
    else
      match tls.handshake(consumed, rest)
      case Done(used) => if 0 < used <= |rest| then Some(used) else None
      case Continue(used) =>
        if 0 < used <= |rest| then
          var more := Settled(tls, consumed + rest[..used], rest[used..]);
          if more.None? then None else Some(used + more.value)
        else None
      case _ => None
  }

  /** How a stream ends: at a record boundary, inside a record, or in a TLS failure. */
  datatype Ending = Drained | Cut | Broken

  /** The plaintexts of the records of an uncut stream, and how it ends. */
  function Records(tls: Provider, consumed: seq<byte>, rest: seq<byte>): (seq<seq<byte>>, Ending)
    decreases |rest|
  {
    if rest == [] then ([], Drained)
    else
      match tls.decrypt(consumed, rest)
      case Incomplete => ([], Cut)
      case Rejected => ([], Broken)
      case PostHandshake(used) =>
        if used >= |rest| then ([], Broken)
        else
          var n := Settled(tls, consumed + rest[..used], rest[used..]);
          if n.None? then ([], Broken)
          else Records(tls, consumed + rest[..used + n.value], rest[used + n.value..])
      case Record(plain, used) =>
        if 0 < used <= |rest| then
          var (plains, ending) := Records(tls, consumed + rest[..used], rest[used..]);
          ([plain] + plains, ending)
        else ([plain], Broken)
  }

  function EndingError(ending: Ending, plaintext: seq<byte>): AuthError {
    match ending
    case Drained => AtEnd(plaintext)
    case Cut => IoFailed
    case Broken => TlsFailed
  }

  /** The verdict on a record sequence. */
  function Verdict(tls: Provider, plains: seq<seq<byte>>, ending: Ending, plaintext: seq<byte>): Result<seq<byte>, AuthError> {
    if plains == [] then Err(EndingError(ending, plaintext))
    else
      var more := plaintext + plains[0];
      if |more| > MAX_RESPONSE then Err(ResponseTooLarge)
      else if tls.completeJson(more) then Ok(more)
      else Verdict(tls, plains[1..], ending, more)
  }

  predicate Stops(tls: Provider, plaintext: seq<byte>) {
    |plaintext| > MAX_RESPONSE || tls.completeJson(plaintext)
  }

  /** The verdict spelled out. If some record makes the accumulated plaintext complete or
      too long, the first such record decides; otherwise the ending does. So success is
      the shortest record-aligned plaintext that is complete JSON, if no shorter one broke
      the size limit. */
  lemma {:induction false} FirstStopDecides(tls: Provider, plains: seq<seq<byte>>, ending: Ending, plaintext: seq<byte>, k: nat)
    requires k <= |plains|
    requires forall j :: 0 < j < k ==> !Stops(tls, plaintext + Concat(plains[..j]))
    requires k == 0 ==> forall j :: 0 < j <= |plains| ==> !Stops(tls, plaintext + Concat(plains[..j]))
    requires k > 0 ==> Stops(tls, plaintext + Concat(plains[..k]))
    ensures Verdict(tls, plains, ending, plaintext) ==
            if k == 0 then Err(EndingError(ending, plaintext + Concat(plains)))
            else if |plaintext + Concat(plains[..k])| > MAX_RESPONSE then Err(ResponseTooLarge)
            else Ok(plaintext + Concat(plains[..k]))
    decreases |plains|
  {
    if plains == [] {
      assert plaintext + Concat(plains) == plaintext;
    } else {
      var more := plaintext + plains[0];
      assert plains[..1] == [plains[0]] && Concat(plains[1..][..0]) == [];
      ConcatCons(plaintext, plains, 1);
      assert more + [] == more;
      if k != 1 {
        assert !Stops(tls, plaintext + Concat(plains[..1]));
        forall j | 0 < j <= |plains| - 1
          ensures more + Concat(plains[1..][..j]) == plaintext + Concat(plains[..j + 1])
        {
          ConcatCons(plaintext, plains, j + 1);
        }
        ConcatCons(plaintext, plains, |plains|);
        assert plains[..|plains|] == plains && plains[1..][..|plains| - 1] == plains[1..];
        FirstStopDecides(tls, plains[1..], ending, more, if k == 0 then 0 else k - 1);
      }
    }
  }

  lemma ConcatCons(plaintext: seq<byte>, plains: seq<seq<byte>>, j: nat)
    requires 0 < j <= |plains|
    ensures plaintext + Concat(plains[..j]) == (plaintext + plains[0]) + Concat(plains[1..][..j - 1])
  {
    assert plains[..j][1..] == plains[1..][..j - 1];
  }

  // ------------------------------------------- segmentation independence

  /** A decided provider call would be decided the same way on the whole rest. */
  lemma DecidedOnTheRest(tls: Provider, link: Link)
    requires Contract(tls) && link.buffer != []
    ensures link.Rest() != []
    ensures var h := tls.handshake(link.consumed, link.buffer);
            && HandshakenOk(h, link.buffer)
            && if h == NeedsMore then |link.buffer| <= MAX_ENCRYPTED - RECEIVE_CHUNK
               else tls.handshake(link.consumed, link.Rest()) == h
    ensures var d := tls.decrypt(link.consumed, link.buffer);
            && DecryptedOk(d, link.buffer)
            && if d == Incomplete then |link.buffer| <= MAX_ENCRYPTED - RECEIVE_CHUNK
               else tls.decrypt(link.consumed, link.Rest()) == d
  {
  }

  /** The handshake loop consumes the same bytes however the stream is cut. */
  lemma {:induction false} HandshakeIgnoresCuts(tls: Provider, link: Link)
    requires Contract(tls) && AllPieces(link.pieces)
    ensures HandshakeAgrees(tls, link)
    decreases |link.Rest()|, |link.pieces|
  {
    var h := tls.handshake(link.consumed, link.buffer);
    if link.buffer != [] {
      DecidedOnTheRest(tls, link);
    }
    if link.buffer == [] || h.NeedsMore? {
      if link.pieces != [] {
        HandshakeIgnoresCuts(tls, link.Fill());
      } else {
        assert link.Rest() == link.buffer;
      }
    } else if h.Done? {
      DropIsConsumption(link, h.used);
    } else if h.Continue? {
      DropIsConsumption(link, h.used);
      HandshakeIgnoresCuts(tls, link.Drop(h.used));
      var n := Settled(tls, link.Drop(h.used).consumed, link.Drop(h.used).Rest());
      if n.Some? {
        ConsumeTwice(link.consumed, link.Rest(), h.used, n.value);
      }
    }
  }

  ghost predicate HandshakeAgrees(tls: Provider, link: Link) {
    var n := Settled(tls, link.consumed, link.Rest());
    var r := Continued(tls, link);
    && r.Some? == n.Some?
    && (r.Some? ==>
          && AllPieces(r.value.pieces)
          && r.value.consumed == link.consumed + link.Rest()[..n.value]
          && r.value.Rest() == link.Rest()[n.value..])
  }

  lemma DropIsConsumption(link: Link, n: nat)
    requires n <= |link.buffer|
    ensures link.Drop(n).consumed == link.consumed + link.Rest()[..n]
    ensures link.Drop(n).Rest() == link.Rest()[n..]
  {
    assert link.Rest()[..n] == link.buffer[..n];
  }

  lemma ConsumeTwice(consumed: seq<byte>, rest: seq<byte>, m: nat, n: nat)
    requires m + n <= |rest|
    ensures (consumed + rest[..m]) + rest[m..][..n] == consumed + rest[..m + n]
    ensures rest[m..][n..] == rest[m + n..]
  {
    assert rest[..m] + rest[m..][..n] == rest[..m + n];
  }

  /** Whether the loop meets a post-handshake report that consumed its whole buffer, so
      that there is no EXTRA buffer to take the message from. */
  predicate Swallows(tls: Provider, link: Link, plaintext: seq<byte>)
    decreases |link.Rest()|, |link.pieces|
  {
    if link.buffer == [] then link.CanReceive() && Swallows(tls, link.Fill(), plaintext)
    else
      var d := tls.decrypt(link.consumed, link.buffer);
      match d
      case Incomplete => link.CanReceive() && Swallows(tls, link.Fill(), plaintext)
      case Rejected => false
      case PostHandshake(used) =>
        used >= |link.buffer| ||
        var next := Continued(tls, link.Drop(used));
        next.Some? && Swallows(tls, next.value, plaintext)
      case Record(plain, used) =>
        !Stops(tls, plaintext + plain) && 0 < used <= |link.buffer|
        && Swallows(tls, link.Drop(used), plaintext + plain)
  }

  ghost predicate ReceiveAgrees(tls: Provider, link: Link, plaintext: seq<byte>) {
    var (plains, ending) := Records(tls, link.consumed, link.Rest());
    Received(tls, link, plaintext) ==
    if Swallows(tls, link, plaintext) then Err(TlsFailed) else Verdict(tls, plains, ending, plaintext)
  }

  /** However the server's bytes are cut into receives, the loop's result is the verdict on
      the records of the uncut stream, unless the cut made it swallow a message. */
  lemma {:induction false} ReceiveIgnoresCuts(tls: Provider, link: Link, plaintext: seq<byte>)
    requires Contract(tls) && AllPieces(link.pieces)
    ensures ReceiveAgrees(tls, link, plaintext)
    decreases |link.Rest()|, |link.pieces|, 1
  {
    var d := tls.decrypt(link.consumed, link.buffer);
    if link.buffer != [] {
      DecidedOnTheRest(tls, link);
    }
    if link.buffer == [] || d.Incomplete? {
      if link.pieces != [] {
        ReceiveIgnoresCuts(tls, link.Fill(), plaintext);
      } else {
        assert link.Rest() == link.buffer;
      }
    } else if d.Record? {
      RecordIgnoresCuts(tls, link, plaintext);
    } else if d.PostHandshake? {
      PostHandshakeIgnoresCuts(tls, link, plaintext);
    }
  }

  lemma {:induction false} RecordIgnoresCuts(tls: Provider, link: Link, plaintext: seq<byte>)
    requires Contract(tls) && AllPieces(link.pieces)
    requires link.buffer != [] && tls.decrypt(link.consumed, link.buffer).Record?
    ensures ReceiveAgrees(tls, link, plaintext)
    decreases |link.Rest()|, |link.pieces|, 0
  {
    DecidedOnTheRest(tls, link);
    var d := tls.decrypt(link.consumed, link.buffer);
    DropIsConsumption(link, d.used);
    ReceiveIgnoresCuts(tls, link.Drop(d.used), plaintext + d.plain);
    var (plains, ending) := Records(tls, link.Drop(d.used).consumed, link.Drop(d.used).Rest());
    assert ([d.plain] + plains)[1..] == plains;
  }

  lemma {:induction false} PostHandshakeIgnoresCuts(tls: Provider, link: Link, plaintext: seq<byte>)
    requires Contract(tls) && AllPieces(link.pieces)
    requires link.buffer != [] && tls.decrypt(link.consumed, link.buffer).PostHandshake?
    ensures ReceiveAgrees(tls, link, plaintext)
    decreases |link.Rest()|, |link.pieces|, 0
  {
    DecidedOnTheRest(tls, link);
    var used := tls.decrypt(link.consumed, link.buffer).used;
    if used >= |link.buffer| {
      return;
    }
    var dropped := link.Drop(used);
    DropIsConsumption(link, used);
    HandshakeIgnoresCuts(tls, dropped);
    var n := Settled(tls, dropped.consumed, dropped.Rest());
    if n.Some? {
      ConsumeTwice(link.consumed, link.Rest(), used, n.value);
      var next := Continued(tls, dropped).value;
      ReceiveIgnoresCuts(tls, next, plaintext);
      AfterTheMessage(tls, link, used, n.value, next, plaintext);
    }
  }

  /** Past a message the handshake loop settled, the result is the remaining stream's. */
  lemma AfterTheMessage(tls: Provider, link: Link, used: nat, more: nat, next: Link, plaintext: seq<byte>)
    requires Contract(tls) && used < |link.buffer| && tls.decrypt(link.consumed, link.buffer) == PostHandshake(used)
    requires Continued(tls, link.Drop(used)) == Some(next)
    requires Settled(tls, link.consumed + link.Rest()[..used], link.Rest()[used..]) == Some(more)
    requires used + more <= |link.Rest()| && next.consumed == link.consumed + link.Rest()[..used + more]
    requires next.Rest() == link.Rest()[used + more..] && ReceiveAgrees(tls, next, plaintext)
    ensures ReceiveAgrees(tls, link, plaintext)
  {
    ReceivedPast(tls, link, used, next, plaintext);
    DecidedOnTheRest(tls, link);
    RecordsPast(tls, link.consumed, link.Rest(), used, more);
    hide Received, Swallows, Records;
  }

  lemma ReceivedPast(tls: Provider, link: Link, used: nat, next: Link, plaintext: seq<byte>)
    requires used < |link.buffer| && tls.decrypt(link.consumed, link.buffer) == PostHandshake(used)
    requires Continued(tls, link.Drop(used)) == Some(next)
    ensures Received(tls, link, plaintext) == Received(tls, next, plaintext)
    ensures Swallows(tls, link, plaintext) == Swallows(tls, next, plaintext)
  {
  }

  lemma RecordsPast(tls: Provider, consumed: seq<byte>, rest: seq<byte>, used: nat, more: nat)
    requires used < |rest| && tls.decrypt(consumed, rest) == PostHandshake(used)
    requires Settled(tls, consumed + rest[..used], rest[used..]) == Some(more) && used + more <= |rest|
    ensures Records(tls, consumed, rest) == Records(tls, consumed + rest[..used + more], rest[used + more..])
  {
  }

  /** The result for an uncut stream. */
  function Response(tls: Provider, consumed: seq<byte>, stream: seq<byte>): Result<seq<byte>, AuthError> {
    var (plains, ending) := Records(tls, consumed, stream);
    Verdict(tls, plains, ending, [])
  }

  /** Exactly when the result is that of the uncut stream. */
  lemma ResultIsTheStreamsUnlessSwallowed(tls: Provider, consumed: seq<byte>, pending: seq<byte>, pieces: seq<seq<byte>>)
    requires Contract(tls) && AllPieces(pieces)
    ensures var link := Link(consumed, pending, pieces);
            var response := Response(tls, consumed, pending + Concat(pieces));
            Received(tls, link, []) == response <==> !Swallows(tls, link, []) || response == Err(TlsFailed)
  {
    ReceiveIgnoresCuts(tls, Link(consumed, pending, pieces), []);
  }

  lemma {:induction false} MessagesLeftAreNotSwallowed(tls: Provider, link: Link, plaintext: seq<byte>)
    requires Contract(tls) && LeavesMessage(tls) && AllPieces(link.pieces)
    ensures !Swallows(tls, link, plaintext)
    decreases |link.Rest()|, |link.pieces|
  {
    var d := tls.decrypt(link.consumed, link.buffer);
    if link.buffer == [] || d.Incomplete? {
      if link.CanReceive() {
        MessagesLeftAreNotSwallowed(tls, link.Fill(), plaintext);
      }
    } else {
      DecidedOnTheRest(tls, link);
      if d.Record? {
        DropIsConsumption(link, d.used);
        MessagesLeftAreNotSwallowed(tls, link.Drop(d.used), plaintext + d.plain);
      } else if d.PostHandshake? {
        DropIsConsumption(link, d.used);
        HandshakeIgnoresCuts(tls, link.Drop(d.used));
        var next := Continued(tls, link.Drop(d.used));
        if next.Some? {
          MessagesLeftAreNotSwallowed(tls, next.value, plaintext);
        }
      }
    }
  }

  /** Segmentation independence: with a provider that always leaves a post-handshake message
      as EXTRA, any two ways of cutting one stream give one result, the stream's. */
  lemma CutsDoNotMatter(tls: Provider, consumed: seq<byte>, pending: seq<byte>, a: seq<seq<byte>>, b: seq<seq<byte>>)
    requires Contract(tls) && LeavesMessage(tls) && AllPieces(a) && AllPieces(b) && Concat(a) == Concat(b)
    ensures Received(tls, Link(consumed, pending, a), []) == Received(tls, Link(consumed, pending, b), [])
         == Response(tls, consumed, pending + Concat(a))
  {
    MessagesLeftAreNotSwallowed(tls, Link(consumed, pending, a), []);
    MessagesLeftAreNotSwallowed(tls, Link(consumed, pending, b), []);
    ReceiveIgnoresCuts(tls, Link(consumed, pending, a), []);
    ReceiveIgnoresCuts(tls, Link(consumed, pending, b), []);
  }

  /** A provider whose post-handshake report may swallow the whole buffer: byte 1 is such a
      message, any other byte a record of itself, complete as soon as it is non-empty. */
  function Swallowing(): Provider {
    Provider(
      (c: seq<byte>, b: seq<byte>) =>
        if b == [] then Incomplete else if b[0] == 1 then PostHandshake(1) else Record(b[..1], 1),
      (c: seq<byte>, b: seq<byte>) => if b == [] then NeedsMore else Done(1),
      (p: seq<byte>) => p != [])
  }

  lemma SwallowingKeepsTheContract()
    ensures Contract(Swallowing()) && !LeavesMessage(Swallowing())
  {
    assert Swallowing().decrypt([], [1]) == PostHandshake(1);
  }

  /** Without that the result does depend on the cut. The code treats a post-handshake
      report with no EXTRA buffer as a failure; when the report consumes all it was shown,
      EXTRA exists only if the next bytes happened to arrive in the same receive. */
  lemma WithoutTheMessageCutsMatter()
    ensures Received(Swallowing(), Link([], [], [[1], [2, 3]]), []) == Err(TlsFailed)
    ensures Received(Swallowing(), Link([], [], [[1, 2, 3]]), []) == Ok([3])
  {
    assert Link([], [], [[1], [2, 3]]).Fill() == Link([], [1], [[2, 3]]);
    WholeStreamSucceeds();
  }

  lemma WholeStreamSucceeds()
    ensures Received(Swallowing(), Link([], [], [[1, 2, 3]]), []) == Ok([3])
  {
    var tls := Swallowing();
    assert Link([], [], [[1, 2, 3]]).Fill() == Link([], [1, 2, 3], []);
    assert Link([], [1, 2, 3], []).Drop(1) == Link([1], [2, 3], []);
    assert Link([1], [2, 3], []).Drop(1) == Link([1, 2], [3], []);
    assert Received(tls, Link([1, 2], [3], []), []) == Ok([3]) by {
      assert [3][..1] == [3] && [] + [3] == [3];
    }
    assert Continued(tls, Link([1], [2, 3], [])) == Some(Link([1, 2], [3], []));
  }

  // ------------------------------------------------------- the connection

  /** The `encrypted` vector, passed by reference and changed in place. */
  class EncryptedBuffer {
    var bytes: seq<byte>

    constructor (bytes: seq<byte>)
      ensures this.bytes == bytes
    {
      this.bytes := bytes;
    }

    /** Keep the last `extra` bytes: the part the provider did not consume. */
    method PreserveExtra(extra: nat)
      requires extra <= |bytes|
      modifies this
      ensures bytes == old(bytes)[|old(bytes)| - extra..]
    {
      if extra == 0 {
        bytes := [];
        return;
      }
      bytes := bytes[|bytes| - extra..];
    }
  }

  class TlsConnection {
    const tls: Provider
    /** What the socket will still deliver, one piece a receive. */
    var pieces: seq<seq<byte>>
    var pending: seq<byte>
    /** The security context, as all bytes the provider has consumed. */
    var consumed: seq<byte>

    constructor (tls: Provider, pieces: seq<seq<byte>>, pending: seq<byte>)
      ensures this.tls == tls && this.pieces == pieces && this.pending == pending && consumed == []
    {
      this.tls, this.pieces, this.pending, consumed := tls, pieces, pending, [];
    }

    ghost predicate Valid()
      reads this
    {
      Consumes(tls) && AllPieces(pieces) && |pending| <= MAX_ENCRYPTED
    }

    /** The connection as a link; the buffer is the one in use. */
    ghost function At(buffer: EncryptedBuffer): Link
      reads this, buffer
    {
      Link(consumed, buffer.bytes, pieces)
    }

    method Receive(buffer: EncryptedBuffer) returns (ok: bool)
      requires AllPieces(pieces) && |buffer.bytes| <= MAX_ENCRYPTED
      modifies this`pieces, buffer
      ensures AllPieces(pieces) && |buffer.bytes| <= MAX_ENCRYPTED
      ensures ok == old(At(buffer).CanReceive())
      ensures ok <==> |old(buffer.bytes)| <= 0x10_0000 - 0x4000 && old(pieces) != []
      ensures At(buffer) == if ok then old(At(buffer)).Fill() else old(At(buffer))
    {
      if |buffer.bytes| > MAX_ENCRYPTED - RECEIVE_CHUNK {
        return false;
      }
      if pieces == [] {
        return false;
      }
      buffer.bytes := buffer.bytes + pieces[0];
      pieces := pieces[1..];
      return true;
    }

    method Consume(buffer: EncryptedBuffer, used: nat)
      requires used <= |buffer.bytes|
      modifies this`consumed, buffer
      ensures At(buffer) == old(At(buffer)).Drop(used)
    {
      consumed := consumed + buffer.bytes[..used];
      buffer.PreserveExtra(|buffer.bytes| - used);
    }

    /** The handshake loop; on success the leftover bytes move to `pending`. */
    method ContinueHandshake(buffer: EncryptedBuffer) returns (ok: bool)
      requires Valid() && |buffer.bytes| <= MAX_ENCRYPTED
      modifies this`pieces, this`pending, this`consumed, buffer
      ensures Valid()
      ensures ok == Continued(tls, old(At(buffer))).Some?
      ensures ok ==> Link(consumed, pending, pieces) == Continued(tls, old(At(buffer))).value
    {
      while true
        invariant Valid() && |buffer.bytes| <= MAX_ENCRYPTED
        invariant Continued(tls, At(buffer)) == Continued(tls, old(At(buffer)))
        decreases |At(buffer).Rest()|, |pieces|
      {
        hide Continued;
        if buffer.bytes == [] {
          EmptyTurn(tls, At(buffer));
          var received := Receive(buffer);
          if !received {
            return false;
          }
        }
        OneTurn(tls, At(buffer));
        var h := tls.handshake(consumed, buffer.bytes);
        match h
        case NeedsMore =>
          var received := Receive(buffer);
          if !received {
            return false;
          }
        case Refused =>
          return false;
        case Done(used) =>
          Consume(buffer, used);
          pending := buffer.bytes;
          return true;
        case Continue(used) =>
          Consume(buffer, used);
      }
    }

    /** A post-handshake message with its EXTRA bytes: back through the handshake loop. */
    method TakeMessage(buffer: EncryptedBuffer, used: nat) returns (ok: bool)
      requires Valid() && used <= |buffer.bytes| <= MAX_ENCRYPTED
      modifies this`pieces, this`pending, this`consumed, buffer
      ensures Valid() && (ok ==> |buffer.bytes| <= MAX_ENCRYPTED)
      ensures ok == Continued(tls, old(At(buffer)).Drop(used)).Some?
      ensures ok ==> At(buffer) == Continued(tls, old(At(buffer)).Drop(used)).value && pending == []
    {
      hide Continued;
      ghost var link := At(buffer).Drop(used);
      Consume(buffer, used);
      assert At(buffer) == link;
      ok := ContinueHandshake(buffer);
      if ok {
        buffer.bytes := pending;
        pending := [];
      }
    }

    /** The receive loop. Its last line, after the loop, is never reached. */
    method ReceiveJson() returns (r: Result<seq<byte>, AuthError>)
      requires Valid()
      modifies this
      ensures r == Received(tls, old(Link(consumed, pending, pieces)), [])
    {
      r := Err(ResponseTooLarge);
      var buffer := new EncryptedBuffer(pending);
      pending := [];
      var plaintext := [];
      while |plaintext| <= MAX_RESPONSE
        invariant fresh(buffer) && Valid() && |buffer.bytes| <= MAX_ENCRYPTED
        invariant |plaintext| <= MAX_RESPONSE
        invariant Received(tls, At(buffer), plaintext) == Received(tls, old(Link(consumed, pending, pieces)), [])
        invariant At(buffer).Stream() == old(Link(consumed, pending, pieces)).Stream()
        decreases |At(buffer).Rest()|, |pieces|
      {
        if buffer.bytes == [] {
          var received := Receive(buffer);
          if !received {
            return Err(if plaintext == [] then IoFailed else MalformedResponse);
          }
        }
        var d := tls.decrypt(consumed, buffer.bytes);
        assert DecryptedOk(d, buffer.bytes);
        match d
        case Incomplete =>
          var received := Receive(buffer);
          if !received {
            return Err(IoFailed);
          }
        case Rejected =>
          return Err(TlsFailed);
        case PostHandshake(used) =>
          if used == |buffer.bytes| {
            return Err(TlsFailed);
          }
          var continued := TakeMessage(buffer, used);
          if !continued {
            return Err(TlsFailed);
          }
        case Record(plain, used) =>
          plaintext := plaintext + plain;
          if |plaintext| > MAX_RESPONSE {
            return Err(ResponseTooLarge);
          }
          if tls.completeJson(plaintext) {
            return Ok(plaintext);
          }
          Consume(buffer, used);
      }
      assert false;
    }
  }
}
