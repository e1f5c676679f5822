/** The view-login bootstrap with any number of threads in the four-byte receive hook, the
    guest sending and receiving beside it, and the bridge consuming the duplicate login.
    One arming; every atomic load, store and exchange is a step of its own. */
module ViewLoginInterleavings {
  import opened Bytes
  import opened LobbyPackets
  import ViewBootstrap
  import LobbyBridge

  datatype Pc =
    | Idle
    | TestReady
    | TestFailed
    | Exchange
    | Sending
    | ResetSent
    | SetFailed
    | Zeroing(i: nat)
    | TestSent
    | Polling(attempt: nat)
    | SetReady
    | ExchangeFailed

  datatype Event =
    | HostSent(bytes: seq<byte>)
    | PeekPassed(bytes: seq<byte>)
    | ServerDelivered(bytes: seq<byte>)
    | GuestReceived(bytes: seq<byte>)
    | GuestLoginConsumed
    | GuestLoginPassed
    | OtherSendPassed

  datatype Peek = PeekBytes(n: nat) | PeekClosed | PeekFailed

  datatype State = State(
    enabled: bool, requestSent: bool, ready: bool, failed: bool, packet: seq<byte>,
    loginPending: bool, inbound: seq<byte>, threads: seq<Pc>, log: seq<Event>)

  datatype Action =
    | FourByteReceive(t: nat)
    | HookStep(t: nat, sent: int)
    | PollStep(t: nat, peek: Peek, up: bool)
    | GuestSend(port: uint16, bytes: seq<byte>)
    | GuestReceive(n: nat)
    | ServerSend(bytes: seq<byte>)

  /** The bridge just configured: packet armed, duplicate suppression pending. */
  function Armed(login: seq<byte>, threads: nat): State {
    State(true, false, false, false, login, true, [], seq(threads, _ => Idle), [])
  }

  function At(s: State, t: nat, pc: Pc): State
    requires t < |s.threads|
  {
    s.(threads := s.threads[t := pc])
  }

  function Log(s: State, e: Event): State {
    s.(log := s.log + [e])
  }

  function Step(md5: seq<byte> -> Digest, viewPort: uint16, s: State, a: Action): State {
    match a
    case FourByteReceive(t) =>
      // A four-byte receive on the view socket, past the load of the enabled flag.
      if t < |s.threads| && s.threads[t].Idle? && s.enabled then At(s, t, TestReady) else s
    case HookStep(t, sent) =>
      if t < |s.threads| then StepHook(s, t, sent) else s
    case PollStep(t, peek, up) =>
      if t < |s.threads| && s.threads[t].Polling? then StepPoll(md5, s, t, peek, up) else s
    case GuestSend(port, bytes) =>
      if !LobbyBridge.IsViewLogin(viewPort, port, bytes) then Log(s, OtherSendPassed)
      else if s.loginPending then Log(s.(loginPending := false), GuestLoginConsumed)
      else Log(s, GuestLoginPassed)
    case GuestReceive(n) =>
      if n <= |s.inbound| then Log(s.(inbound := s.inbound[n..]), GuestReceived(s.inbound[..n])) else s
    case ServerSend(bytes) =>
      Log(s.(inbound := s.inbound + bytes), ServerDelivered(bytes))
  }

  /** Every step of the hook but the polls. `sent` is what the socket's send returns. */
  function StepHook(s: State, t: nat, sent: int): State
    requires t < |s.threads|
  {
    match s.threads[t]
    case TestReady => At(s, t, if s.ready then Idle else TestFailed)
    case TestFailed => At(s, t, if s.failed then Idle else Exchange)
    case Exchange => At(s.(requestSent := true), t, if s.requestSent then TestSent else Sending)
    case Sending =>
      if sent == |s.packet| then At(Log(s, HostSent(s.packet)), t, Zeroing(0))
      else if 0 <= sent < |s.packet| then At(Log(s, HostSent(s.packet[..sent])), t, ResetSent)
      else At(s, t, ResetSent)
    case ResetSent => At(s.(requestSent := false), t, SetFailed)
    case SetFailed => At(s.(failed := true), t, TestSent)
    case Zeroing(i) =>
      if i < |s.packet| then At(s.(packet := s.packet[i := 0]), t, Zeroing(i + 1)) else At(s, t, TestSent)
    case TestSent => At(s, t, if s.requestSent then Polling(0) else Idle)
    case SetReady => At(s.(ready := true), t, Idle)
    case ExchangeFailed => At(s.(failed := true), t, Idle)
    case _ => s
  }

  /** One poll. It only peeks: `inbound` keeps every byte. */
  function StepPoll(md5: seq<byte> -> Digest, s: State, t: nat, peek: Peek, up: bool): State
    requires t < |s.threads| && s.threads[t].Polling?
  {
    var attempt := s.threads[t].attempt;
    if attempt >= ViewBootstrap.PEEK_ATTEMPTS || peek.PeekClosed? then At(s, t, ExchangeFailed)
    else if peek.PeekBytes? && 0 < peek.n <= |s.inbound| && peek.n <= KEY_RESPONSE_SIZE
            && IsCompleteKeyResponse(md5, up, s.inbound[..peek.n]) then
      At(Log(s, PeekPassed(s.inbound[..peek.n])), t, SetReady)
    else At(s, t, Polling(attempt + 1))
  }

  function Run(md5: seq<byte> -> Digest, viewPort: uint16, s: State, actions: seq<Action>): State {
    if actions == [] then s
    else
      var n := |actions| - 1;
      Step(md5, viewPort, Run(md5, viewPort, s, actions[..n]), actions[n])
  }

  // ------------------------------------------------------- reading a log

  /** What a history adds up to. */
  datatype Tally = Tally(fullSends: nat, peeked: bool, delivered: seq<byte>, received: seq<byte>,
                         guestLogins: nat, serverLogins: nat)

  /** `serverLogins` counts the whole logins put on the wire to the server: those the guest
      sent and the bridge let pass, and full host sends. Whether a full host send starts on
      a clean stream is the subject of `LoginAttempts`. */
  function After(login: seq<byte>, c: Tally, e: Event): Tally {
    match e
    case HostSent(bytes) =>
      if |bytes| == |login| then c.(fullSends := c.fullSends + 1, serverLogins := c.serverLogins + 1) else c
    case PeekPassed(_) => c.(peeked := true)
    case ServerDelivered(bytes) => c.(delivered := c.delivered + bytes)
    case GuestReceived(bytes) => c.(received := c.received + bytes)
    case GuestLoginConsumed => c.(guestLogins := c.guestLogins + 1)
    case GuestLoginPassed => c.(guestLogins := c.guestLogins + 1, serverLogins := c.serverLogins + 1)
    case OtherSendPassed => c
  }

  function Count(login: seq<byte>, log: seq<Event>): Tally {
    if log == [] then Tally(0, false, [], [], 0, 0)
    else After(login, Count(login, log[..|log| - 1]), log[|log| - 1])
  }

  /** The host only ever sends pieces of the armed login, and none after a full send; a peek
      passes on the next 40 undelivered bytes being a complete key response. */
  predicate EventOk(md5: seq<byte> -> Digest, login: seq<byte>, c: Tally, e: Event) {
    match e
    case HostSent(bytes) => bytes <= login && c.fullSends == 0
    case PeekPassed(bytes) =>
      && IsCompleteKeyResponse(md5, true, bytes)
      && c.received + bytes <= c.delivered
    case _ => true
  }

  predicate LogOk(md5: seq<byte> -> Digest, login: seq<byte>, log: seq<Event>) {
    log == [] ||
    var before := log[..|log| - 1];
    LogOk(md5, login, before) && EventOk(md5, login, Count(login, before), log[|log| - 1])
  }

  // ------------------------------------------------------------ invariant

  /** Between winning the exchange and the outcome of the send. */
  predicate HoldsPacket(pc: Pc) {
    pc.Sending? || pc.ResetSent?
  }

  predicate ThreadsOk(s: State, sends: nat) {
    && (forall t, u | 0 <= t < |s.threads| && 0 <= u < |s.threads| ::
          HoldsPacket(s.threads[t]) && HoldsPacket(s.threads[u]) ==> t == u)
    && (forall t :: 0 <= t < |s.threads| && HoldsPacket(s.threads[t]) ==> s.requestSent && sends == 0)
    && (forall t :: 0 <= t < |s.threads| && s.threads[t].Zeroing? ==> sends == 1)
  }

  predicate ReadyOk(s: State, peeked: bool) {
    && (s.ready ==> peeked)
    && (forall t :: 0 <= t < |s.threads| && s.threads[t].SetReady? ==> peeked)
  }

  predicate PacketOk(s: State, login: seq<byte>, sends: nat) {
    && |s.packet| == |login|
    && sends <= 1
    && (sends == 0 ==> s.packet == login)
    && (sends == 1 ==> s.requestSent)
  }

  predicate TrafficOk(s: State, c: Tally) {
    && c.delivered == c.received + s.inbound
    && (s.loginPending <==> c.guestLogins == 0)
    && c.serverLogins == c.fullSends + if c.guestLogins == 0 then 0 else c.guestLogins - 1
  }

  predicate Core(s: State, login: seq<byte>, c: Tally) {
    ThreadsOk(s, c.fullSends) && ReadyOk(s, c.peeked) && PacketOk(s, login, c.fullSends) && TrafficOk(s, c)
  }

  function Now(login: seq<byte>, s: State, r: State, c: Tally): Tally {
    if |r.log| <= |s.log| then c else After(login, c, r.log[|s.log|])
  }

  predicate LogKept(md5: seq<byte> -> Digest, login: seq<byte>, s: State, r: State, c: Tally) {
    r.log == s.log
    || (|r.log| == |s.log| + 1 && r.log[..|s.log|] == s.log && EventOk(md5, login, c, r.log[|s.log|]))
  }

  predicate Kept(md5: seq<byte> -> Digest, login: seq<byte>, s: State, r: State, c: Tally) {
    LogKept(md5, login, s, r, c) && Core(r, login, Now(login, s, r, c))
  }

  /** Steps that touch neither the packet nor the sent flag and log nothing: tests, which
      only move their thread, and stores of an outcome. */
  predicate Quiet(pc: Pc) {
    !HoldsPacket(pc) && !pc.Zeroing? && !pc.Exchange?
  }

  predicate StoresOutcome(pc: Pc) {
    pc.SetFailed? || pc.SetReady? || pc.ExchangeFailed?
  }

  lemma TestsOnlyMove(s: State, t: nat, sent: int)
    requires t < |s.threads| && Quiet(s.threads[t]) && !StoresOutcome(s.threads[t])
    ensures var r := StepHook(s, t, sent);
            && |r.threads| == |s.threads|
            && r == s.(threads := s.threads[t := r.threads[t]])
            && !HoldsPacket(r.threads[t]) && !r.threads[t].Zeroing? && !r.threads[t].SetReady?
  {
  }

  lemma StoresSetAnOutcome(s: State, t: nat, sent: int)
    requires t < |s.threads| && StoresOutcome(s.threads[t])
    ensures var r := StepHook(s, t, sent);
            && |r.threads| == |s.threads|
            && r == s.(threads := s.threads[t := r.threads[t]], ready := r.ready, failed := r.failed)
            && (r.threads[t].Idle? || r.threads[t].TestSent?)
            && (r.ready ==> s.ready || s.threads[t].SetReady?)
  {
  }

  lemma QuietKeepsCore(md5: seq<byte> -> Digest, login: seq<byte>, s: State, t: nat, sent: int, c: Tally)
    requires t < |s.threads| && Quiet(s.threads[t]) && Core(s, login, c)
    ensures Kept(md5, login, s, StepHook(s, t, sent), c)
  {
    if StoresOutcome(s.threads[t]) {
      StoresSetAnOutcome(s, t, sent);
    } else {
      TestsOnlyMove(s, t, sent);
    }
    QuietChange(md5, login, s, StepHook(s, t, sent), t, c);
  }

  lemma QuietChange(md5: seq<byte> -> Digest, login: seq<byte>, s: State, r: State, t: nat, c: Tally)
    requires t < |s.threads| && Core(s, login, c) && |r.threads| == |s.threads|
    requires r == s.(threads := s.threads[t := r.threads[t]], ready := r.ready, failed := r.failed)
    requires !HoldsPacket(r.threads[t]) && !r.threads[t].Zeroing? && !r.threads[t].SetReady?
    requires r.ready ==> s.ready || s.threads[t].SetReady?
    ensures Kept(md5, login, s, r, c)
  {
  }

  lemma ExchangeKeepsCore(md5: seq<byte> -> Digest, login: seq<byte>, s: State, t: nat, sent: int, c: Tally)
    requires t < |s.threads| && s.threads[t].Exchange? && Core(s, login, c)
    ensures Kept(md5, login, s, StepHook(s, t, sent), c)
  {
    // A won exchange means nobody else holds the packet and no full send happened.
    if !s.requestSent {
      Moves(md5, login, s, s.(requestSent := true), t, Sending, c);
    } else {
      Moves(md5, login, s, s, t, TestSent, c);
    }
  }

  lemma ResetKeepsCore(md5: seq<byte> -> Digest, login: seq<byte>, s: State, t: nat, sent: int, c: Tally)
    requires t < |s.threads| && s.threads[t].ResetSent? && Core(s, login, c)
    ensures Kept(md5, login, s, StepHook(s, t, sent), c)
  {
    assert StepHook(s, t, sent) == At(s.(requestSent := false), t, SetFailed);
  }

  lemma ZeroingKeepsCore(md5: seq<byte> -> Digest, login: seq<byte>, s: State, t: nat, sent: int, c: Tally)
    requires t < |s.threads| && s.threads[t].Zeroing? && Core(s, login, c)
    ensures Kept(md5, login, s, StepHook(s, t, sent), c)
  {
    var i := s.threads[t].i;
    if i < |s.packet| {
      Moves(md5, login, s, s.(packet := s.packet[i := 0]), t, Zeroing(i + 1), c);
    } else {
      Moves(md5, login, s, s, t, TestSent, c);
    }
  }

  /** A step of thread `t` that logs nothing: `m` is the state with its flags and packet
      changed, `pc` where it goes. */
  lemma Moves(md5: seq<byte> -> Digest, login: seq<byte>, s: State, m: State, t: nat, pc: Pc, c: Tally)
    requires t < |s.threads| && Core(s, login, c) && !pc.SetReady?
    requires m == s.(requestSent := m.requestSent, packet := m.packet) && PacketOk(m, login, c.fullSends)
    requires s.requestSent ==> m.requestSent
    requires HoldsPacket(pc) ==> (m.requestSent && c.fullSends == 0
      && (forall u :: 0 <= u < |s.threads| && HoldsPacket(s.threads[u]) ==> u == t))
    requires pc.Zeroing? ==> c.fullSends == 1
    ensures Kept(md5, login, s, At(m, t, pc), c)
  {
  }

  lemma SendingKeepsCore(md5: seq<byte> -> Digest, login: seq<byte>, s: State, t: nat, sent: int, c: Tally)
    requires t < |s.threads| && s.threads[t].Sending? && Core(s, login, c)
    ensures Kept(md5, login, s, StepHook(s, t, sent), c)
  {
    if sent == |s.packet| {
      FullSend(md5, login, s, t, c);
    } else if 0 <= sent < |s.packet| {
      PartialSend(md5, login, s, t, s.packet[..sent], c);
    } else {
      Moves(md5, login, s, s, t, ResetSent, c);
    }
  }

  lemma FullSend(md5: seq<byte> -> Digest, login: seq<byte>, s: State, t: nat, c: Tally)
    requires t < |s.threads| && s.threads[t].Sending? && Core(s, login, c)
    ensures Kept(md5, login, s, At(Log(s, HostSent(s.packet)), t, Zeroing(0)), c)
  {
  }

  lemma PartialSend(md5: seq<byte> -> Digest, login: seq<byte>, s: State, t: nat, piece: seq<byte>, c: Tally)
    requires t < |s.threads| && s.threads[t].Sending? && Core(s, login, c)
    requires piece <= s.packet && |piece| < |s.packet|
    ensures Kept(md5, login, s, At(Log(s, HostSent(piece)), t, ResetSent), c)
  {
  }

  lemma HookKeepsCore(md5: seq<byte> -> Digest, login: seq<byte>, s: State, t: nat, sent: int, c: Tally)
    requires t < |s.threads| && Core(s, login, c)
    ensures Kept(md5, login, s, StepHook(s, t, sent), c)
  {
    match s.threads[t]
    case Exchange => ExchangeKeepsCore(md5, login, s, t, sent, c);
    case Sending => SendingKeepsCore(md5, login, s, t, sent, c);
    case ResetSent => ResetKeepsCore(md5, login, s, t, sent, c);
    case Zeroing(_) => ZeroingKeepsCore(md5, login, s, t, sent, c);
    case _ => QuietKeepsCore(md5, login, s, t, sent, c);
  }

  lemma PollKeepsCore(md5: seq<byte> -> Digest, login: seq<byte>, s: State, t: nat, peek: Peek, up: bool, c: Tally)
    requires t < |s.threads| && s.threads[t].Polling? && Core(s, login, c)
    ensures Kept(md5, login, s, StepPoll(md5, s, t, peek, up), c)
  {
    var r := StepPoll(md5, s, t, peek, up);
    PollLogs(md5, login, s, t, peek, up, c);
    PollShape(md5, s, t, peek, up);
    PollMovesOnly(s, r, t, login, c);
  }

  /** A poll logs nothing, or a peek that passed on the next undelivered bytes. */
  lemma PollLogs(md5: seq<byte> -> Digest, login: seq<byte>, s: State, t: nat, peek: Peek, up: bool, c: Tally)
    requires t < |s.threads| && s.threads[t].Polling? && c.delivered == c.received + s.inbound
    ensures LogKept(md5, login, s, StepPoll(md5, s, t, peek, up), c)
  {
    if peek.PeekBytes? && 0 < peek.n <= |s.inbound| {
      assert c.received + s.inbound[..peek.n] <= c.received + s.inbound;
      UpIsNeeded(md5, up, s.inbound[..peek.n]);
    }
  }

  /** And it changes nothing but the log and where its thread goes. */
  lemma PollShape(md5: seq<byte> -> Digest, s: State, t: nat, peek: Peek, up: bool)
    requires t < |s.threads| && s.threads[t].Polling?
    ensures var r := StepPoll(md5, s, t, peek, up);
            && (r.log == s.log || (|r.log| == |s.log| + 1 && r.log[|s.log|].PeekPassed?))
            && |r.threads| == |s.threads|
            && r == s.(threads := s.threads[t := r.threads[t]], log := r.log)
            && !HoldsPacket(r.threads[t]) && !r.threads[t].Zeroing?
            && (r.threads[t].SetReady? ==> r.log != s.log)
  {
  }

  lemma UpIsNeeded(md5: seq<byte> -> Digest, up: bool, bytes: seq<byte>)
    ensures IsCompleteKeyResponse(md5, up, bytes) ==> IsCompleteKeyResponse(md5, true, bytes)
  {
  }

  lemma PollMovesOnly(s: State, r: State, t: nat, login: seq<byte>, c: Tally)
    requires t < |s.threads| && Core(s, login, c) && |r.threads| == |s.threads|
    requires r == s.(threads := s.threads[t := r.threads[t]], log := r.log)
    requires !HoldsPacket(r.threads[t]) && !r.threads[t].Zeroing?
    requires r.log == s.log || (|r.log| == |s.log| + 1 && r.log[|s.log|].PeekPassed?)
    requires r.threads[t].SetReady? ==> r.log != s.log
    ensures Core(r, login, Now(login, s, r, c))
  {
  }

  lemma EntryKeepsCore(md5: seq<byte> -> Digest, viewPort: uint16, login: seq<byte>, s: State, t: nat, c: Tally)
    requires Core(s, login, c)
    ensures Kept(md5, login, s, Step(md5, viewPort, s, FourByteReceive(t)), c)
  {
  }

  lemma GuestSendKeepsCore(md5: seq<byte> -> Digest, viewPort: uint16, login: seq<byte>, s: State, port: uint16,
                           bytes: seq<byte>, c: Tally)
    requires Core(s, login, c)
    ensures Kept(md5, login, s, Step(md5, viewPort, s, GuestSend(port, bytes)), c)
  {
    if !LobbyBridge.IsViewLogin(viewPort, port, bytes) {
      Sends(md5, login, s, s.loginPending, OtherSendPassed, c);
    } else if s.loginPending {
      Sends(md5, login, s, false, GuestLoginConsumed, c);
    } else {
      Sends(md5, login, s, false, GuestLoginPassed, c);
    }
  }

  lemma Sends(md5: seq<byte> -> Digest, login: seq<byte>, s: State, pending: bool, e: Event, c: Tally)
    requires Core(s, login, c)
    requires (e.OtherSendPassed? && pending == s.loginPending) || (e.GuestLoginConsumed? && s.loginPending && !pending)
      || (e.GuestLoginPassed? && !s.loginPending && !pending)
    ensures Kept(md5, login, s, Log(s.(loginPending := pending), e), c)
  {
  }

  lemma GuestReceiveKeepsCore(md5: seq<byte> -> Digest, viewPort: uint16, login: seq<byte>, s: State, n: nat, c: Tally)
    requires Core(s, login, c)
    ensures Kept(md5, login, s, Step(md5, viewPort, s, GuestReceive(n)), c)
  {
    if n <= |s.inbound| {
      assert c.received + s.inbound == (c.received + s.inbound[..n]) + s.inbound[n..];
    }
  }

  lemma ServerSendKeepsCore(md5: seq<byte> -> Digest, viewPort: uint16, login: seq<byte>, s: State, bytes: seq<byte>, c: Tally)
    requires Core(s, login, c)
    ensures Kept(md5, login, s, Step(md5, viewPort, s, ServerSend(bytes)), c)
  {
    assert (c.received + s.inbound) + bytes == c.received + (s.inbound + bytes);
  }

  lemma StepKeepsCore(md5: seq<byte> -> Digest, viewPort: uint16, login: seq<byte>, s: State, a: Action, c: Tally)
    requires Core(s, login, c)
    ensures Kept(md5, login, s, Step(md5, viewPort, s, a), c)
  {
    match a
    case FourByteReceive(t) => EntryKeepsCore(md5, viewPort, login, s, t, c);
    case HookStep(t, sent) =>
      if t < |s.threads| {
        HookKeepsCore(md5, login, s, t, sent, c);
      }
    case PollStep(t, peek, up) =>
      if t < |s.threads| && s.threads[t].Polling? {
        PollKeepsCore(md5, login, s, t, peek, up, c);
      }
    case GuestSend(port, bytes) => GuestSendKeepsCore(md5, viewPort, login, s, port, bytes, c);
    case GuestReceive(n) => GuestReceiveKeepsCore(md5, viewPort, login, s, n, c);
    case ServerSend(bytes) => ServerSendKeepsCore(md5, viewPort, login, s, bytes, c);
  }

  // ------------------------------------------------------------- results

  predicate Inv(md5: seq<byte> -> Digest, login: seq<byte>, s: State) {
    LogOk(md5, login, s.log) && Core(s, login, Count(login, s.log))
  }

  lemma KeptLogIsOk(md5: seq<byte> -> Digest, login: seq<byte>, s: State, r: State)
    requires LogOk(md5, login, s.log) && LogKept(md5, login, s, r, Count(login, s.log))
    ensures LogOk(md5, login, r.log)
    ensures Count(login, r.log) == Now(login, s, r, Count(login, s.log))
  {
  }

  lemma {:induction false} RunKeepsInv(md5: seq<byte> -> Digest, viewPort: uint16, login: seq<byte>, s: State,
                                       actions: seq<Action>)
    requires Inv(md5, login, s)
    ensures Inv(md5, login, Run(md5, viewPort, s, actions))
  {
    if actions != [] {
      var n := |actions| - 1;
      RunKeepsInv(md5, viewPort, login, s, actions[..n]);
      var before := Run(md5, viewPort, s, actions[..n]);
      StepKeepsCore(md5, viewPort, login, before, actions[n], Count(login, before.log));
      KeptLogIsOk(md5, login, before, Step(md5, viewPort, before, actions[n]));
    }
  }

  lemma ArmedRunKeepsInv(md5: seq<byte> -> Digest, viewPort: uint16, login: seq<byte>, threads: nat, actions: seq<Action>)
    ensures Inv(md5, login, Run(md5, viewPort, Armed(login, threads), actions))
  {
    RunKeepsInv(md5, viewPort, login, Armed(login, threads), actions);
  }

  /** At most one full login leaves the host per arming, whatever the threads do; until then
      the packet is the armed one, so zeroing happens only after that send. */
  lemma AtMostOneFullSend(md5: seq<byte> -> Digest, viewPort: uint16, login: seq<byte>, threads: nat, actions: seq<Action>)
    ensures var s := Run(md5, viewPort, Armed(login, threads), actions);
            && Count(login, s.log).fullSends <= 1
            && (s.packet != login ==> Count(login, s.log).fullSends == 1)
  {
    ArmedRunKeepsInv(md5, viewPort, login, threads, actions);
  }

  lemma {:induction false} LogOkAt(md5: seq<byte> -> Digest, login: seq<byte>, log: seq<Event>, i: nat)
    requires LogOk(md5, login, log) && i < |log|
    ensures EventOk(md5, login, Count(login, log[..i]), log[i])
  {
    if i < |log| - 1 {
      LogOkAt(md5, login, log[..|log| - 1], i);
      assert log[..|log| - 1][..i] == log[..i];
    }
  }

  /** Every byte the host injects is a byte of the armed login, and none follows a full one. */
  lemma HostSendsOnlyTheLogin(md5: seq<byte> -> Digest, viewPort: uint16, login: seq<byte>, threads: nat,
                              actions: seq<Action>, i: nat)
    requires var log := Run(md5, viewPort, Armed(login, threads), actions).log; i < |log| && log[i].HostSent?
    ensures var log := Run(md5, viewPort, Armed(login, threads), actions).log;
            log[i].bytes <= login && Count(login, log[..i]).fullSends == 0
  {
    ArmedRunKeepsInv(md5, viewPort, login, threads, actions);
    LogOkAt(md5, login, Run(md5, viewPort, Armed(login, threads), actions).log, i);
  }

  lemma {:induction false} PeekedMeansPassed(login: seq<byte>, log: seq<Event>)
    requires Count(login, log).peeked
    ensures exists i :: 0 <= i < |log| && log[i].PeekPassed?
  {
    var n := |log| - 1;
    if !log[n].PeekPassed? {
      PeekedMeansPassed(login, log[..n]);
      var i :| 0 <= i < n && log[..n][i].PeekPassed?;
      assert log[i].PeekPassed?;
    }
  }

  /** Ready is set only after a peek saw a complete 40-byte key response, and saw it as the
      next undelivered bytes of the server's stream. */
  lemma ReadyMeansAPeekPassed(md5: seq<byte> -> Digest, viewPort: uint16, login: seq<byte>, threads: nat, actions: seq<Action>)
    requires Run(md5, viewPort, Armed(login, threads), actions).ready
    ensures var log := Run(md5, viewPort, Armed(login, threads), actions).log;
            exists i :: 0 <= i < |log| && log[i].PeekPassed?
              && IsCompleteKeyResponse(md5, true, log[i].bytes)
              && Count(login, log[..i]).received + log[i].bytes <= Count(login, log[..i]).delivered
  {
    ArmedRunKeepsInv(md5, viewPort, login, threads, actions);
    var log := Run(md5, viewPort, Armed(login, threads), actions).log;
    PeekedMeansPassed(login, log);
    var i :| 0 <= i < |log| && log[i].PeekPassed?;
    LogOkAt(md5, login, log, i);
  }

  /** Conservation of the guest's stream: what the server delivered is what the guest
      received and what is still waiting. For the hook this is by construction: its only
      read of the socket is a peek, so no step of it has anything to take away. */
  lemma GuestStreamIsIntact(md5: seq<byte> -> Digest, viewPort: uint16, login: seq<byte>, threads: nat, actions: seq<Action>)
    ensures var s := Run(md5, viewPort, Armed(login, threads), actions);
            var c := Count(login, s.log);
            c.delivered == c.received + s.inbound
  {
    ArmedRunKeepsInv(md5, viewPort, login, threads, actions);
  }

  /** Login-count conservation: of the guest's g >= 1 view logins exactly one is consumed,
      so with the injected one (i of them, at most 1) g - 1 + i whole logins go to the
      server, in whatever order injection and consumption happen. */
  lemma ServerSeesEachLoginOnce(md5: seq<byte> -> Digest, viewPort: uint16, login: seq<byte>, threads: nat, actions: seq<Action>)
    ensures var c := Count(login, Run(md5, viewPort, Armed(login, threads), actions).log);
            && c.fullSends <= 1
            && (c.guestLogins >= 1 ==> c.serverLogins == c.guestLogins - 1 + c.fullSends)
            && (c.guestLogins == 0 ==> c.serverLogins == c.fullSends)
  {
    ArmedRunKeepsInv(md5, viewPort, login, threads, actions);
  }
}
