/** The lobby data exchange: three messages out, two triggers and a list in, over a stream
    socket that sends and delivers in arbitrary pieces. */
module LobbyClient {
  import opened Bytes
  import opened LobbyPackets

  const TRIGGER_SIZE := 5
  const LOADER_LIST_SIZE := 0x148
  const INT_MAX := 0x7FFF_FFFF

  datatype LobbyStage =
    | Input | Resolve | Connect | DataBindStage | DataTrigger | DataAccountStage
    | DataCharacterList | DataSelectionTrigger | DataSelectionStage

  datatype LobbyError =
    | InvalidInput | NameResolutionFailed | ConnectionFailed | IoFailed
    | UnexpectedResponse | Cancelled | TimedOut

  datatype LobbyFailure = LobbyFailure(error: LobbyError, stage: LobbyStage)

  datatype SessionMaterial = SessionMaterial(accountId: uint32, hash: SessionHash)
  datatype LobbyOptions = LobbyOptions(dataPort: uint16, timeoutMs: uint32, selectionTimeoutMs: uint32)

  /** What name resolution and connecting came to. */
  datatype Connection = StartupFailed | Unresolved | Refused | Connected(server: Ipv4Address)

  /** One `recv`: bytes, an orderly close, an expired receive timeout, another error. */
  datatype RecvResult = Received(n: nat) | Closed | Expired | Failed

  datatype WaitResult = Complete | WaitCancelled | WaitTimedOut | WaitIoFailed

  ghost function Repeat(n: nat, v: nat): (r: seq<nat>)
    ensures |r| == n && forall i :: 0 <= i < n ==> r[i] == v
  {
    seq(n, _ => v)
  }

  /** The socket and its surroundings. `incoming` is what the server will still deliver
      before closing; each `recv` hands over an arbitrary non-empty piece of it. */
  class DataSocket {
    /** No I/O error and no stop request ever happens, and whatever the server sends
        arrives while the clock is below `horizon`. */
    const reliable: bool
    const horizon: nat
    var incoming: seq<byte>
    var received: seq<byte>
    var sent: seq<byte>
    /** For each byte on the wire, how many had been received when it was sent. */
    ghost var stamps: seq<nat>
    var now: nat
    var polling: bool
    /** Once requested, a stop stays requested. */
    var stopping: bool
    /** Some call failed: a send, a receive other than an empty poll, or setting the timeout. */
    var broken: bool

    constructor (stream: seq<byte>, reliable: bool, start: nat, horizon: nat)
      requires reliable ==> start < horizon
      ensures Valid() && incoming == stream && received == [] && sent == [] && stamps == []
      ensures now == start && !polling && !stopping && !broken && this.reliable == reliable && this.horizon == horizon
    {
      this.reliable, this.horizon := reliable, horizon;
      incoming, received, sent, stamps := stream, [], [], [];
      now, polling, stopping, broken := start, false, false, false;
    }

    ghost predicate Valid()
      reads this
    {
      |stamps| == |sent| && (reliable ==> now < horizon && !stopping)
    }

    /** Some time passes. */
    method Wait(atLeast: nat)
      requires Valid() && (reliable ==> now + atLeast < horizon)
      modifies this`now
      ensures Valid() && now >= old(now) + atLeast
    {
      var later: nat :| now + atLeast <= later && (reliable ==> later < horizon);
      now := later;
    }

    method Send(bytes: seq<byte>, limit: nat) returns (n: int)
      requires Valid() && 0 < limit <= |bytes|
      modifies this`sent, this`stamps, this`broken
      ensures broken == (old(broken) || n <= 0)
      ensures Valid() && n <= limit && (reliable ==> n > 0)
      ensures sent == old(sent) + if n > 0 then bytes[..n] else []
      ensures stamps == old(stamps) + if n > 0 then Repeat(n, |received|) else []
    {
      var fails: bool := *;
      if fails && !reliable {
        n :| n <= 0;
        broken := true;
        return;
      }
      n :| 0 < n <= limit;
      sent := sent + bytes[..n];
      stamps := stamps + Repeat(n, |received|);
    }

    /** Delivers into `buffer[at..at + n]`. */
    method Recv(buffer: array<byte>, at: nat, limit: nat) returns (r: RecvResult)
      requires Valid() && 0 < limit && at + limit <= buffer.Length
      modifies this`incoming, this`received, this`now, this`broken, buffer
      ensures broken == (old(broken) || !(r.Received? || (r.Expired? && polling)))
      ensures Valid() && now >= old(now)
      ensures r.Received? ==> 0 < r.n <= limit && r.n <= |old(incoming)|
      ensures var n := if r.Received? then r.n else 0;
              && incoming == old(incoming)[n..]
              && received == old(received) + old(incoming)[..n]
              && buffer[..] == old(buffer[..at]) + old(incoming)[..n] + old(buffer[at + n..])
      ensures r.Expired? && polling ==> now > old(now)
      ensures reliable ==> r.Received? || (r.Closed? && incoming == []) || (r.Expired? && polling)
    {
      var failure: RecvResult := *;
      if failure.Expired? && polling && (reliable ==> now + 1 < horizon) {
        Wait(1);
        return failure;
      }
      if !reliable && !failure.Received? && !(failure.Expired? && polling) {
        broken := true;
        return failure;
      }
      if incoming == [] {
        broken := true;
        return Closed;
      }
      var n: nat :| 0 < n <= limit && n <= |incoming|;
      CopyInto(incoming[..n], buffer, at);
      received := received + incoming[..n];
      incoming := incoming[n..];
      return Received(n);
    }

    method SetPollTimeout() returns (ok: bool)
      requires Valid()
      modifies this`polling, this`broken
      ensures broken == (old(broken) || !ok)
      ensures Valid() && (reliable ==> ok) && (ok ==> polling)
    {
      ok := *;
      ok := ok || reliable;
      polling := polling || ok;
      broken := broken || !ok;
    }

    method ReadClock() returns (t: nat)
      requires Valid()
      modifies this`now
      ensures Valid() && t == now >= old(now)
    {
      Wait(0);
      t := now;
    }

    method StopRequested() returns (stop: bool)
      requires Valid()
      modifies this`stopping
      ensures Valid() && stop == stopping && (old(stopping) ==> stopping)
    {
      var requested: bool := *;
      stopping := stopping || (requested && !reliable);
      stop := stopping;
    }
  }

  method SendAll(socket: DataSocket, bytes: seq<byte>) returns (ok: bool)
    requires socket.Valid()
    modifies socket`sent, socket`stamps, socket`broken
    ensures socket.broken == (old(socket.broken) || !ok)
    ensures socket.Valid() && (socket.reliable ==> ok)
    ensures exists k: nat :: k <= |bytes| && (ok <==> k == |bytes|)
              && socket.sent == old(socket.sent) + bytes[..k]
              && socket.stamps == old(socket.stamps) + Repeat(k, |socket.received|)
  {
    var k := 0;
    while k < |bytes|
      invariant 0 <= k <= |bytes| && socket.Valid()
      invariant socket.broken == old(socket.broken)
      invariant socket.sent == old(socket.sent) + bytes[..k]
      invariant socket.stamps == old(socket.stamps) + Repeat(k, |socket.received|)
    {
      var chunk := if |bytes| - k < INT_MAX then |bytes| - k else INT_MAX;
      var n := socket.Send(bytes[k..], chunk);
      if n <= 0 {
        return false;
      }
      assert bytes[k..][..n] == bytes[k..k + n];
      k := k + n;
    }
    return true;
  }

  /** The next `n` bytes of the stream moved from `incoming` to `received`. */
  twostate predicate Took(socket: DataSocket, n: nat)
    reads socket
  {
    && n <= |old(socket.incoming)|
    && socket.incoming == old(socket.incoming)[n..]
    && socket.received == old(socket.received) + old(socket.incoming)[..n]
  }

  /** True exactly when the buffer was filled, with exactly the next stream bytes. */
  method ReceiveExact(socket: DataSocket, buffer: array<byte>) returns (ok: bool, ghost taken: nat)
    requires socket.Valid() && !socket.polling
    modifies socket`incoming, socket`received, socket`now, socket`broken, buffer
    ensures socket.broken == (old(socket.broken) || !ok)
    ensures socket.Valid() && socket.now >= old(socket.now)
    ensures taken <= buffer.Length && Took(socket, taken) && (ok <==> taken == buffer.Length)
    ensures ok ==> buffer[..] == old(socket.incoming)[..taken]
    ensures socket.reliable ==> ok == (buffer.Length <= |old(socket.incoming)|)
  {
    var at := 0;
    while at < buffer.Length
      invariant 0 <= at <= buffer.Length && socket.Valid() && socket.now >= old(socket.now)
      invariant socket.broken == old(socket.broken)
      invariant Took(socket, at) && buffer[..at] == old(socket.incoming)[..at]
    {
      var chunk := if buffer.Length - at < INT_MAX then buffer.Length - at else INT_MAX;
      var r := socket.Recv(buffer, at, chunk);
      if !r.Received? {
        return false, at;
      }
      at := at + r.n;
    }
    return true, at;
  }

  /** Polls until the buffer is full. Terminates by bytes left, then time to the deadline:
      an empty poll advances the clock. Once the buffer is full the answer is Complete,
      whatever the clock or the stop token say. */
  method ReceiveExactUntil(socket: DataSocket, buffer: array<byte>, timeoutMs: nat)
    returns (r: WaitResult, ghost taken: nat)
    requires socket.Valid()
    modifies socket`incoming, socket`received, socket`now, socket`polling, socket`stopping
    modifies socket`broken, buffer
    ensures socket.broken == (old(socket.broken) || r.WaitIoFailed?)
    ensures socket.Valid()
    ensures taken <= buffer.Length && Took(socket, taken)
    // A stop or a deadline that is there already is noticed before anything is taken.
    ensures old(socket.stopping) && buffer.Length > 0 ==> taken == 0 && (r.WaitCancelled? || r.WaitIoFailed?)
    ensures timeoutMs == 0 && buffer.Length > 0 ==> taken == 0 && !r.Complete?
    ensures r.WaitCancelled? ==> socket.stopping
    ensures r.WaitTimedOut? ==> socket.now >= old(socket.now) + timeoutMs
    ensures r.Complete? ==> taken == buffer.Length && buffer[..] == old(socket.incoming)[..taken]
    ensures taken == buffer.Length > 0 ==> r.Complete?
    ensures socket.reliable && socket.horizon <= old(socket.now) + timeoutMs ==>
              r == if buffer.Length <= |old(socket.incoming)| then Complete else WaitIoFailed
  {
    var configured := socket.SetPollTimeout();
    if !configured {
      return WaitIoFailed, 0;
    }
    var start := socket.ReadClock();
    var deadline := start + timeoutMs;
    var at := 0;
    while at < buffer.Length
      invariant 0 <= at <= buffer.Length && socket.Valid() && socket.polling
      invariant Took(socket, at) && buffer[..at] == old(socket.incoming)[..at]
      invariant old(socket.stopping) ==> socket.stopping && at == 0
      invariant timeoutMs == 0 ==> at == 0
      invariant socket.now >= start && socket.broken == old(socket.broken)
      decreases buffer.Length - at, deadline - socket.now
    {
      var stop := socket.StopRequested();
      if stop {
        return WaitCancelled, at;
      }
      var time := socket.ReadClock();
      if time >= deadline {
        return WaitTimedOut, at;
      }
      var chunk := if buffer.Length - at < INT_MAX then buffer.Length - at else INT_MAX;
      var received := socket.Recv(buffer, at, chunk);
      match received
      case Received(n) => at := at + n;
      case Closed => return WaitIoFailed, at;
      case Failed => return WaitIoFailed, at;
      case Expired =>
    }
    return Complete, at;
  }

  // --------------------------------------------------------- the exchange

  predicate IsTrigger(bytes: seq<byte>, first: byte) {
    |bytes| == TRIGGER_SIZE && bytes[0] == first && forall i :: 1 <= i < TRIGGER_SIZE ==> bytes[i] == 0
  }

  predicate IsLoaderList(bytes: seq<byte>) {
    |bytes| == LOADER_LIST_SIZE && bytes[0] == 0x03 && bytes[1] <= 16
  }

  /** The 338 bytes that let the selection request out. */
  predicate Accepted(bytes: seq<byte>) {
    |bytes| == 338 && IsTrigger(bytes[..5], 0x01) && IsLoaderList(bytes[5..333]) && IsTrigger(bytes[333..], 0x02)
  }

  predicate ValidInput(host: string, session: SessionMaterial, key: Key, options: LobbyOptions) {
    && host != [] && session.accountId != 0
    && (exists i :: 0 <= i < 16 && session.hash[i] != 0)
    && (exists i :: 0 <= i < 20 && key[i] != 0)
    && options.dataPort != 0 && options.timeoutMs != 0 && options.selectionTimeoutMs != 0
  }

  /** Everything the client may ever put on the wire. */
  function Wire(session: SessionMaterial, key: Key, server: Ipv4Address): (w: seq<byte>)
    ensures |w| == 84
  {
    DataBind(session.hash) + DataAccountRequest(session.accountId, session.hash, server) + DataSelectionRequest(key)
  }

  /** The three messages in their order, by their tags. */
  lemma WireInBytes(session: SessionMaterial, key: Key, server: Ipv4Address)
    ensures var w := Wire(session, key, server);
            && w[0] == 0xFE && w[12..28] == session.hash
            && w[28] == 0xA1 && ReadLe32(w, 29) == session.accountId && w[33..37] == server && w[40..56] == session.hash
            && w[56] == 0xA2 && w[57..77] == key
  {
    var w := Wire(session, key, server);
    DataRequestFields(session.accountId, session.hash, server, key);
    assert w[0..28] == DataBind(session.hash);
    assert w[28..56] == DataAccountRequest(session.accountId, session.hash, server);
    assert w[56..84] == DataSelectionRequest(key);
    SliceOfSlice(w, 0, 28, 12, 28);
    ReadThroughSlice(w, 28, 56, 1);
    SliceOfSlice(w, 28, 56, 5, 9);
    SliceOfSlice(w, 28, 56, 12, 28);
    SliceOfSlice(w, 56, 84, 1, 21);
  }

  function Failure(error: LobbyError, stage: LobbyStage): Result<byte, LobbyFailure> {
    Err(LobbyFailure(error, stage))
  }

  /** The verdict on a server stream, independent of how it is cut up. */
  function Outcome(stream: seq<byte>): Result<byte, LobbyFailure> {
    if |stream| < 5 then Failure(IoFailed, DataTrigger)
    else if !IsTrigger(stream[..5], 0x01) then Failure(UnexpectedResponse, DataTrigger)
    else if |stream| < 333 then Failure(IoFailed, DataCharacterList)
    else if !IsLoaderList(stream[5..333]) then Failure(UnexpectedResponse, DataCharacterList)
    else if |stream| < 338 then Failure(IoFailed, DataSelectionTrigger)
    else if !IsTrigger(stream[333..338], 0x02) then Failure(UnexpectedResponse, DataSelectionTrigger)
    else Ok(stream[6])
  }

  /** The exchange succeeds exactly on streams that start with an accepted prefix, and then
      returns byte 1 of the list; whatever follows those 338 bytes is irrelevant. */
  lemma OutcomeIsOkExactlyOnAcceptedPrefixes(stream: seq<byte>)
    ensures Outcome(stream).Ok? <==> |stream| >= 338 && Accepted(stream[..338])
    ensures Outcome(stream).Ok? ==> Outcome(stream).value == stream[5..333][1]
    ensures |stream| >= 338 ==> Outcome(stream) == Outcome(stream[..338])
  {
    if |stream| >= 338 {
      var s := stream[..338];
      assert s[..5] == stream[..5] && s[5..333] == stream[5..333];
      assert s[333..] == stream[333..338] == s[333..338];
    }
  }

  /** The five bytes of a trigger. */
  lemma TriggerInBytes(bytes: seq<byte>, first: byte)
    ensures IsTrigger(bytes, first) <==> bytes == [first, 0, 0, 0, 0]
  {
  }

  /** The outcome on the bytes themselves: trigger 01 00 00 00 00, a 328-byte list that
      starts with 3 and a count of at most 16, trigger 02 00 00 00 00; and otherwise the
      stage that came up short, as an I/O failure, or came out wrong. */
  lemma OutcomeInBytes(stream: seq<byte>)
    ensures Outcome(stream) ==
            if |stream| < 5 then Err(LobbyFailure(IoFailed, DataTrigger))
            else if stream[..5] != [1, 0, 0, 0, 0] then Err(LobbyFailure(UnexpectedResponse, DataTrigger))
            else if |stream| < 333 then Err(LobbyFailure(IoFailed, DataCharacterList))
            else if stream[5] != 3 || stream[6] > 16 then Err(LobbyFailure(UnexpectedResponse, DataCharacterList))
            else if |stream| < 338 then Err(LobbyFailure(IoFailed, DataSelectionTrigger))
            else if stream[333..338] != [2, 0, 0, 0, 0] then Err(LobbyFailure(UnexpectedResponse, DataSelectionTrigger))
            else Ok(stream[6])
  {
    if |stream| >= 5 {
      TriggerInBytes(stream[..5], 1);
    }
    if |stream| >= 338 {
      TriggerInBytes(stream[333..338], 2);
    }
  }

  /** What had been received when byte `j` of the wire was sent, on the bytes. */
  ghost predicate AskedFor(j: nat, stamp: nat, received: seq<byte>) {
    && (28 <= j ==> stamp >= 5 && |received| >= 5 && received[..5] == [1, 0, 0, 0, 0])
    && (56 <= j ==> stamp == 338 && |received| == 338 && received[5] == 3 && received[6] <= 16
                    && received[333..338] == [2, 0, 0, 0, 0])
  }

  lemma SentInOrderInBytes(stamps: seq<nat>, received: seq<byte>)
    requires SentInOrder(stamps, received)
    ensures forall j :: 0 <= j < |stamps| ==> AskedFor(j, stamps[j], received)
  {
    if |received| >= 5 {
      TriggerInBytes(received[..5], 1);
    }
    if |received| == 338 {
      assert received[333..] == received[333..338];
      TriggerInBytes(received[333..338], 2);
    }
  }

  /** Which inputs are refused outright. */
  lemma ValidInputInBytes(host: string, session: SessionMaterial, key: Key, options: LobbyOptions)
    ensures ValidInput(host, session, key, options) <==>
            !(host == "" || session.accountId == 0 || session.hash == Zeros(16) || key == Zeros(20)
              || options.dataPort == 0 || options.timeoutMs == 0 || options.selectionTimeoutMs == 0)
  {
  }

  /** What may have been sent having received `received`: each message only after the
      server bytes that ask for it. */
  ghost predicate SentInOrder(stamps: seq<nat>, received: seq<byte>) {
    forall j :: 0 <= j < |stamps| ==>
      && (28 <= j ==> stamps[j] >= 5 && |received| >= 5 && IsTrigger(received[..5], 0x01))
      && (56 <= j ==> stamps[j] == 338 && |received| == 338 && Accepted(received))
  }

  /** How each result relates to the bytes that had moved: the stage reported is the first
      one that failed, whatever the network did. */
  ghost predicate Explained(r: Result<byte, LobbyFailure>, received: seq<byte>, sent: nat) {
    var triggered := |received| >= 5 && IsTrigger(received[..5], 0x01);
    var listed := triggered && |received| >= 333 && IsLoaderList(received[5..333]);
    match r
    case Ok(slots) => Accepted(received) && slots == received[6] && sent == 84
    case Err(LobbyFailure(error, stage)) =>
      match stage
      case DataBindStage => error.IoFailed? && received == [] && sent < 28
      case DataTrigger =>
        && sent == 28
        && if error.IoFailed? then |received| < 5 else error.UnexpectedResponse? && |received| == 5 && !triggered
      case DataAccountStage => error.IoFailed? && triggered && |received| == 5 && 28 <= sent < 56
      case DataCharacterList =>
        && sent == 56 && triggered
        && if error.IoFailed? then |received| < 333 else error.UnexpectedResponse? && |received| == 333 && !listed
      case DataSelectionTrigger =>
        && sent == 56 && listed
        && if error.UnexpectedResponse? then |received| == 338 && !Accepted(received)
           else (error.IoFailed? || error.Cancelled? || error.TimedOut?) && |received| < 338
      case DataSelectionStage => error.IoFailed? && Accepted(received) && 56 <= sent < 84
      case Input => error.InvalidInput? && received == [] && sent == 0
      case Resolve => error.NameResolutionFailed? && received == [] && sent == 0
      case Connect => error.ConnectionFailed? && received == [] && sent == 0
  }

  /** The socket has delivered exactly the first `p` bytes of `stream`. */
  ghost predicate Delivered(socket: DataSocket, stream: seq<byte>, p: nat)
    reads socket
  {
    p <= |stream| && socket.received == stream[..p] && socket.incoming == stream[p..]
  }

  lemma DeliveredMore(stream: seq<byte>, p: nat, n: nat)
    requires p + n <= |stream|
    ensures stream[..p] + stream[p..][..n] == stream[..p + n] && stream[p..][n..] == stream[p + n..]
    ensures stream[p..][..n] == stream[p..p + n]
  {
  }

  /** Bind, then the first trigger. */
  method OpenExchange(socket: DataSocket, hash: SessionHash, trigger: array<byte>, ghost stream: seq<byte>)
    returns (failure: Option<LobbyFailure>, ghost p: nat)
    requires socket.Valid() && !socket.polling && Delivered(socket, stream, 0)
    requires socket.sent == [] && socket.stamps == [] && trigger.Length == 5
    modifies socket`incoming, socket`received, socket`sent, socket`stamps, socket`now, trigger
    modifies socket`broken
    ensures socket.Valid() && p <= 5 && Delivered(socket, stream, p) && socket.now >= old(socket.now)
    ensures |socket.sent| <= 28 && socket.sent == DataBind(hash)[..|socket.sent|]
    ensures failure.Some? ==> Explained(Err(failure.value), stream[..p], |socket.sent|)
    ensures failure.Some? ==> failure.value.stage.DataBindStage? || failure.value.stage.DataTrigger?
    ensures failure.None? ==> p == 5 && |socket.sent| == 28 && IsTrigger(stream[..5], 0x01)
    ensures socket.reliable ==>
      (failure.None? <==> |stream| >= 5 && IsTrigger(stream[..5], 0x01))
      && (failure.Some? ==> Err(failure.value) == Outcome(stream))
    ensures !old(socket.broken) ==> (socket.broken <==> failure.Some? && failure.value.error.IoFailed?)
    ensures failure.Some? ==> failure.value.error.IoFailed? || failure.value.error.UnexpectedResponse?
  {
    var bind := MakeDataBind(hash);
    p := 0;
    var sent := SendAll(socket, bind[..]);
    if !sent {
      return Some(LobbyFailure(IoFailed, DataBindStage)), p;
    }
    ghost var before := socket.incoming;
    var received;
    received, p := ReceiveExact(socket, trigger);
    assert before == stream;
    if !received {
      return Some(LobbyFailure(IoFailed, DataTrigger)), p;
    }
    assert trigger[..] == stream[..5];
    if !IsTrigger(trigger[..], 0x01) {
      return Some(LobbyFailure(UnexpectedResponse, DataTrigger)), p;
    }
    return None, p;
  }

  /** Account request, then the character list. */
  method ListCharacters(socket: DataSocket, session: SessionMaterial, server: Ipv4Address, ghost stream: seq<byte>)
    returns (r: Result<byte, LobbyFailure>, ghost p: nat)
    requires socket.Valid() && !socket.polling && Delivered(socket, stream, 5) && IsTrigger(stream[..5], 0x01)
    requires socket.sent == DataBind(session.hash) && |socket.sent| == 28
    modifies socket`incoming, socket`received, socket`sent, socket`stamps, socket`now
    modifies socket`broken
    ensures socket.Valid() && 5 <= p <= 333 && Delivered(socket, stream, p) && socket.now >= old(socket.now)
    ensures 28 <= |socket.sent| <= 56
    ensures socket.sent == DataBind(session.hash)
                           + DataAccountRequest(session.accountId, session.hash, server)[..|socket.sent| - 28]
    ensures forall j :: 28 <= j < |socket.stamps| ==> socket.stamps[j] == 5
    ensures r.Err? ==> Explained(r, stream[..p], |socket.sent|)
    ensures r.Ok? ==> p == 333 && |socket.sent| == 56 && IsLoaderList(stream[5..333]) && r.value == stream[6]
    ensures socket.reliable ==>
      (r.Ok? <==> |stream| >= 333 && IsLoaderList(stream[5..333]))
      && (r.Err? ==> r == Outcome(stream))
    ensures !old(socket.broken) ==> (socket.broken <==> r.Err? && r.error.error.IoFailed?)
    ensures r.Err? ==> r.error.error.IoFailed? || r.error.error.UnexpectedResponse?
  {
    var request := MakeDataAccountRequest(session.accountId, session.hash, server);
    p := 5;
    var sent := SendAll(socket, request[..]);
    if !sent {
      return Failure(IoFailed, DataAccountStage), p;
    }
    var list := new byte[LOADER_LIST_SIZE](_ => 0);
    ghost var taken;
    var received;
    received, taken := ReceiveExact(socket, list);
    p := 5 + taken;
    DeliveredMore(stream, 5, taken);
    assert stream[..p][..5] == stream[..5];
    if !received {
      return Failure(IoFailed, DataCharacterList), p;
    }
    assert list[..] == stream[5..333] == stream[..333][5..333];
    if list[0] != 0x03 || list[1] > 16 {
      return Failure(UnexpectedResponse, DataCharacterList), p;
    }
    assert list[1] == stream[6];
    return Ok(list[1]), p;
  }

  /** The polled second trigger, into the reused trigger buffer. */
  method AwaitSelection(socket: DataSocket, trigger: array<byte>, timeoutMs: nat, ghost stream: seq<byte>)
    returns (failure: Option<LobbyFailure>, ghost p: nat)
    requires socket.Valid() && trigger.Length == 5 && Delivered(socket, stream, 333) && |socket.sent| == 56
    requires IsTrigger(stream[..5], 0x01) && IsLoaderList(stream[5..333])
    modifies socket`incoming, socket`received, socket`now, socket`polling, socket`stopping, trigger
    modifies socket`broken
    ensures socket.Valid() && 333 <= p <= 338 && Delivered(socket, stream, p)
    ensures failure.Some? ==> Explained(Err(failure.value), stream[..p], 56)
    ensures failure.None? ==> p == 338 && Accepted(stream[..338])
    ensures socket.reliable && socket.horizon <= old(socket.now) + timeoutMs ==>
      (failure.None? <==> |stream| >= 338 && IsTrigger(stream[333..338], 0x02))
      && (failure.Some? ==> Err(failure.value) == Outcome(stream))
    ensures old(socket.stopping) ==> failure.Some?
    ensures !old(socket.broken) ==> (socket.broken <==> failure.Some? && failure.value.error.IoFailed?)
    ensures failure.Some? && failure.value.error.Cancelled? ==> socket.stopping
    ensures failure.Some? && failure.value.error.TimedOut? ==> socket.now >= old(socket.now) + timeoutMs
  {
    forall i | 0 <= i < trigger.Length { trigger[i] := 0; }
    ghost var taken;
    var waited;
    waited, taken := ReceiveExactUntil(socket, trigger, timeoutMs);
    p := 333 + taken;
    DeliveredMore(stream, 333, taken);
    PrefixParts(stream, p);
    if waited != Complete {
      var error := if waited.WaitCancelled? then Cancelled else if waited.WaitTimedOut? then TimedOut else IoFailed;
      return Some(LobbyFailure(error, DataSelectionTrigger)), p;
    }
    assert trigger[..] == stream[333..338];
    if !IsTrigger(trigger[..], 0x02) {
      return Some(LobbyFailure(UnexpectedResponse, DataSelectionTrigger)), p;
    }
    return None, p;
  }

  lemma PrefixParts(stream: seq<byte>, p: nat)
    requires 333 <= p <= |stream|
    ensures stream[..p][..5] == stream[..5] && stream[..p][5..333] == stream[5..333]
    ensures p == 338 ==> stream[..p][333..] == stream[333..338]
  {
  }

  method CoordinateCharacterLoginData(host: string, session: SessionMaterial, key: Key, options: LobbyOptions,
                                      connection: Connection, socket: DataSocket)
    returns (r: Result<byte, LobbyFailure>)
    requires socket.Valid() && !socket.polling
    requires socket.received == [] && socket.sent == []
    modifies socket
    ensures r == Failure(InvalidInput, Input) <==> !ValidInput(host, session, key, options)
    ensures !ValidInput(host, session, key, options) || !connection.Connected? ==>
              r.Err? && socket.sent == [] && socket.received == []
    // The server's bytes are read in order, and none beyond the 338th.
    ensures |socket.received| <= 338
    ensures socket.received <= old(socket.incoming) && socket.incoming == old(socket.incoming)[|socket.received|..]
    // The wire: always a prefix of the three messages, each sent only when asked for.
    ensures connection.Connected? ==> socket.sent <= Wire(session, key, connection.server)
    ensures |socket.stamps| == |socket.sent| && SentInOrder(socket.stamps, socket.received)
    ensures forall j :: 0 <= j < |socket.sent| ==> AskedFor(j, socket.stamps[j], socket.received)
    ensures old(socket.stopping) ==> r.Err?
    // The result: explained by the bytes that moved, and on a network that delivers in
    // time a function of the stream alone.
    ensures Explained(r, socket.received, |socket.sent|)
    ensures r.Ok? ==> connection.Connected? && socket.sent == Wire(session, key, connection.server)
    ensures ValidInput(host, session, key, options) ==>
              && (connection.StartupFailed? ==> r == Failure(ConnectionFailed, Connect))
              && (connection.Unresolved? ==> r == Failure(NameResolutionFailed, Resolve))
              && (connection.Refused? ==> r == Failure(ConnectionFailed, Connect))
    // Which error: an I/O failure exactly when some call failed, a cancellation or a timeout
    // only when it was one.
    ensures !old(socket.broken) ==> (socket.broken <==> r.Err? && r.error.error.IoFailed?)
    ensures r.Err? && r.error.error.Cancelled? ==> socket.stopping
    ensures r.Err? && r.error.error.TimedOut? ==> socket.now >= old(socket.now) + options.selectionTimeoutMs
    ensures socket.reliable && socket.horizon <= old(socket.now) + options.selectionTimeoutMs
              && ValidInput(host, session, key, options) && connection.Connected? ==>
              var stream := old(socket.incoming);
              && r == Outcome(stream)
              && (r.Ok? <==> |stream| >= 338 && stream[..5] == [1, 0, 0, 0, 0] && stream[5] == 3 && stream[6] <= 16
                             && stream[333..338] == [2, 0, 0, 0, 0])
              && (r.Ok? ==> r.value == stream[6])
  {
    ghost var stream := socket.incoming;
    r := Failure(InvalidInput, Input);
    if ValidInput(host, session, key, options) {
      match connection {
        case StartupFailed => r := Failure(ConnectionFailed, Connect);
        case Unresolved => r := Failure(NameResolutionFailed, Resolve);
        case Refused => r := Failure(ConnectionFailed, Connect);
        case Connected(server) =>
          r := Exchange(socket, session, key, server, options.selectionTimeoutMs);
      }
    }
    OutcomeInBytes(stream);
    SentInOrderInBytes(socket.stamps, socket.received);
  }

  /** The last stage: wait for the second trigger, then send the selection request. */
  method SelectCharacter(socket: DataSocket, session: SessionMaterial, key: Key, server: Ipv4Address,
                         trigger: array<byte>, slots: byte, selectionTimeoutMs: nat, ghost stream: seq<byte>)
    returns (r: Result<byte, LobbyFailure>)
    requires socket.Valid() && trigger.Length == 5 && Delivered(socket, stream, 333)
    requires IsTrigger(stream[..5], 0x01) && IsLoaderList(stream[5..333]) && slots == stream[6]
    requires socket.sent == Wire(session, key, server)[..56]
    requires forall j :: 28 <= j < |socket.stamps| ==> socket.stamps[j] == 5
    modifies socket, trigger
    ensures 333 <= |socket.received| <= 338 && Delivered(socket, stream, |socket.received|)
    ensures socket.sent <= Wire(session, key, server)
    ensures |socket.stamps| == |socket.sent| && SentInOrder(socket.stamps, socket.received)
    ensures Explained(r, socket.received, |socket.sent|) && r != Failure(InvalidInput, Input)
    ensures r.Ok? ==> socket.sent == Wire(session, key, server)
    ensures socket.reliable && socket.horizon <= old(socket.now) + selectionTimeoutMs ==> r == Outcome(stream)
    ensures old(socket.stopping) ==> r.Err?
    ensures !old(socket.broken) ==> (socket.broken <==> r.Err? && r.error.error.IoFailed?)
    ensures r.Err? && r.error.error.Cancelled? ==> socket.stopping
    ensures r.Err? && r.error.error.TimedOut? ==> socket.now >= old(socket.now) + selectionTimeoutMs
  {
    ghost var w := Wire(session, key, server);
    ghost var p;
    var failure;
    failure, p := AwaitSelection(socket, trigger, selectionTimeoutMs, stream);
    PrefixParts(stream, p);
    if failure.Some? {
      return Err(failure.value);
    }
    var request := MakeDataSelectionRequest(key);
    var sent := SendAll(socket, request[..]);
    if !sent {
      return Failure(IoFailed, DataSelectionStage);
    }
    return Ok(slots);
  }

  method Exchange(socket: DataSocket, session: SessionMaterial, key: Key, server: Ipv4Address, selectionTimeoutMs: nat)
    returns (r: Result<byte, LobbyFailure>)
    requires socket.Valid() && !socket.polling
    requires socket.received == [] && socket.sent == []
    modifies socket
    ensures |socket.received| <= 338 && socket.received <= old(socket.incoming)
    ensures socket.incoming == old(socket.incoming)[|socket.received|..]
    ensures socket.sent <= Wire(session, key, server)
    ensures |socket.stamps| == |socket.sent| && SentInOrder(socket.stamps, socket.received)
    ensures Explained(r, socket.received, |socket.sent|)
    ensures r != Failure(InvalidInput, Input)
    ensures r.Ok? ==> socket.sent == Wire(session, key, server)
    ensures socket.reliable && socket.horizon <= old(socket.now) + selectionTimeoutMs ==>
              r == Outcome(old(socket.incoming))
    ensures old(socket.stopping) ==> r.Err?
    ensures !old(socket.broken) ==> (socket.broken <==> r.Err? && r.error.error.IoFailed?)
    ensures r.Err? && r.error.error.Cancelled? ==> socket.stopping
    ensures r.Err? && r.error.error.TimedOut? ==> socket.now >= old(socket.now) + selectionTimeoutMs
  {
    ghost var stream := socket.incoming;
    ghost var p;
    var trigger := new byte[TRIGGER_SIZE](_ => 0);
    var failure;
    failure, p := OpenExchange(socket, session.hash, trigger, stream);
    if failure.Some? {
      return Err(failure.value);
    }
    r, p := ListCharacters(socket, session, server, stream);
    if r.Err? {
      return;
    }
    r := SelectCharacter(socket, session, key, server, trigger, r.value, selectionTimeoutMs, stream);
  }
}
