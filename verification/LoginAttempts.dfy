/** How often the bootstrap may send under concurrency. The hook clears the sent flag of a
    failed send before it stores the failure, so a thread that has already tested for
    failure can send again, behind the piece the first send left on the stream. */
module LoginAttempts {
  import opened Bytes
  import opened LobbyPackets
  import opened ViewLoginInterleavings
  import LobbyBridge

  /** All bytes the host injected into the guest's stream. */
  function Injected(log: seq<Event>): seq<byte> {
    if log == [] then []
    else
      var e := log[|log| - 1];
      Injected(log[..|log| - 1]) + if e.HostSent? then e.bytes else []
  }

  function Attempts(log: seq<Event>): nat {
    if log == [] then 0
    else Attempts(log[..|log| - 1]) + if log[|log| - 1].HostSent? then 1 else 0
  }

  lemma OneMoreEvent(login: seq<byte>, log: seq<Event>, e: Event)
    ensures Injected(log + [e]) == Injected(log) + if e.HostSent? then e.bytes else []
    ensures Attempts(log + [e]) == Attempts(log) + if e.HostSent? then 1 else 0
    ensures Count(login, log + [e]) == After(login, Count(login, log), e)
  {
    assert (log + [e])[..|log|] == log;
  }

  /** A thread is past its test for failure while the flag of an earlier send is clear. */
  predicate Exposed(s: State) {
    Attempts(s.log) > 0 && !s.requestSent && exists t :: 0 <= t < |s.threads| && s.threads[t].Exchange?
  }

  ghost predicate NeverExposed(md5: seq<byte> -> Digest, viewPort: uint16, s: State, actions: seq<Action>) {
    forall i :: 0 <= i < |actions| ==> !Exposed(Run(md5, viewPort, s, actions[..i]))
  }

  // ------------------------------------------------------- what a step sends

  predicate NewSenders(s: State, r: State) {
    |r.threads| == |s.threads|
    && forall u :: 0 <= u < |r.threads| && r.threads[u].Sending? ==>
         s.threads[u].Sending? || (s.threads[u].Exchange? && !s.requestSent)
  }

  predicate LogsNoSend(s: State, r: State) {
    r.log == s.log || (|r.log| == |s.log| + 1 && r.log == s.log + [r.log[|s.log|]] && !r.log[|s.log|].HostSent?)
  }

  /** What a step of the hook does to the flags and to its own thread, sends aside. */
  predicate HookMoves(s: State, r: State, t: nat) {
    && |r.threads| == |s.threads| && t < |s.threads|
    && r.threads == s.threads[t := r.threads[t]]
    && (r.threads[t].Sending? ==> s.threads[t].Exchange? && !s.requestSent)
    // Only the reset clears the sent flag, and the failure follows it.
    && (s.requestSent ==> r.requestSent || r.threads[t].SetFailed?)
    && (s.failed ==> r.failed) && (s.threads[t].SetFailed? ==> r.failed)
    // A thread gets past its test only while no failure is stored.
    && (r.threads[t].Exchange? ==> !r.failed)
  }

  lemma ExchangeMoves(s: State, t: nat, sent: int)
    requires t < |s.threads| && s.threads[t].Exchange?
    ensures StepHook(s, t, sent) == At(s.(requestSent := true), t, if s.requestSent then TestSent else Sending)
  {
  }

  lemma ResetMoves(s: State, t: nat, sent: int)
    requires t < |s.threads| && s.threads[t].ResetSent?
    ensures StepHook(s, t, sent) == At(s.(requestSent := false), t, SetFailed)
  {
  }

  lemma TestMoves(s: State, t: nat, sent: int)
    requires t < |s.threads| && (s.threads[t].TestReady? || s.threads[t].TestFailed? || s.threads[t].TestSent?)
    ensures StepHook(s, t, sent) == At(s, t, match s.threads[t]
                                             case TestReady => if s.ready then Idle else TestFailed
                                             case TestFailed => if s.failed then Idle else Exchange
                                             case _ => if s.requestSent then Polling(0) else Idle)
  {
  }

  lemma StoreMoves(s: State, t: nat, sent: int)
    requires t < |s.threads| && StoresOutcome(s.threads[t])
    ensures StepHook(s, t, sent) == (if s.threads[t].SetReady? then At(s.(ready := true), t, Idle)
                                     else At(s.(failed := true), t, if s.threads[t].SetFailed? then TestSent else Idle))
  {
  }

  lemma ZeroMoves(s: State, t: nat, sent: int)
    requires t < |s.threads| && s.threads[t].Zeroing?
    ensures var i := s.threads[t].i;
            StepHook(s, t, sent) == (if i < |s.packet| then At(s.(packet := s.packet[i := 0]), t, Zeroing(i + 1))
                                     else At(s, t, TestSent))
  {
  }

  lemma RestStays(s: State, t: nat, sent: int)
    requires t < |s.threads| && (s.threads[t].Idle? || s.threads[t].Polling?)
    ensures StepHook(s, t, sent) == s
  {
  }

  /** Every hook step but the send. */
  lemma HookStepMoves(s: State, t: nat, sent: int)
    requires t < |s.threads| && !s.threads[t].Sending?
    ensures HookMoves(s, StepHook(s, t, sent), t) && StepHook(s, t, sent).log == s.log
  {
    hide StepHook;
    match s.threads[t]
    case Exchange => ExchangeMoves(s, t, sent);
    case ResetSent => ResetMoves(s, t, sent);
    case TestReady => TestMoves(s, t, sent);
    case TestFailed => TestMoves(s, t, sent);
    case TestSent => TestMoves(s, t, sent);
    case SetFailed => StoreMoves(s, t, sent);
    case SetReady => StoreMoves(s, t, sent);
    case ExchangeFailed => StoreMoves(s, t, sent);
    case Zeroing(_) => ZeroMoves(s, t, sent);
    case _ => RestStays(s, t, sent);
  }

  lemma HookStepSends(s: State, t: nat, sent: int)
    requires t < |s.threads| && !s.threads[t].Sending?
    ensures NewSenders(s, StepHook(s, t, sent)) && StepHook(s, t, sent).log == s.log
  {
    hide StepHook;
    HookStepMoves(s, t, sent);
  }

  lemma PollStepSends(md5: seq<byte> -> Digest, s: State, t: nat, peek: Peek, up: bool)
    requires t < |s.threads| && s.threads[t].Polling?
    ensures NewSenders(s, StepPoll(md5, s, t, peek, up)) && LogsNoSend(s, StepPoll(md5, s, t, peek, up))
  {
  }

  lemma OtherStepSends(md5: seq<byte> -> Digest, viewPort: uint16, s: State, a: Action)
    requires !(a.HookStep? && a.t < |s.threads| && s.threads[a.t].Sending?)
    ensures NewSenders(s, Step(md5, viewPort, s, a)) && LogsNoSend(s, Step(md5, viewPort, s, a))
  {
    match a
    case HookStep(t, sent) =>
      if t < |s.threads| {
        HookStepSends(s, t, sent);
      }
    case PollStep(t, peek, up) =>
      if t < |s.threads| && s.threads[t].Polling? {
        PollStepSends(md5, s, t, peek, up);
      }
    case _ =>
  }

  lemma SendStep(s: State, t: nat, sent: int)
    requires t < |s.threads| && s.threads[t].Sending?
    ensures var r := StepHook(s, t, sent);
            && |r.threads| == |s.threads| && !r.threads[t].Sending?
            && (forall u :: 0 <= u < |s.threads| && u != t ==> r.threads[u] == s.threads[u])
            && (r.log == s.log || exists k: nat :: k <= |s.packet| && r.log == s.log + [HostSent(s.packet[..k])])
  {
    if sent == |s.packet| {
      assert s.packet[..|s.packet|] == s.packet;
    }
  }

  // ----------------------------------------------------------- one attempt

  /** At most one send so far, nobody about to make another, and what was injected is a
      beginning of the login, all of it if that send was a full one. */
  predicate SentOnce(login: seq<byte>, s: State) {
    && Attempts(s.log) <= 1
    && Injected(s.log) <= login
    && (Attempts(s.log) == 0 ==> Injected(s.log) == [] && Count(login, s.log).fullSends == 0)
    && (Count(login, s.log).fullSends > 0 ==> Injected(s.log) == login)
    && (Attempts(s.log) > 0 ==> forall t :: 0 <= t < |s.threads| ==> !s.threads[t].Sending?)
  }

  lemma StepKeepsSentOnce(md5: seq<byte> -> Digest, viewPort: uint16, login: seq<byte>, s: State, a: Action)
    requires Inv(md5, login, s) && SentOnce(login, s) && !Exposed(s)
    ensures SentOnce(login, Step(md5, viewPort, s, a))
  {
    if a.HookStep? && a.t < |s.threads| && s.threads[a.t].Sending? {
      SendKeepsSentOnce(md5, login, s, a.t, a.sent);
    } else {
      OtherStepSends(md5, viewPort, s, a);
      QuietlySentOnce(login, s, Step(md5, viewPort, s, a));
    }
  }

  lemma QuietlySentOnce(login: seq<byte>, s: State, r: State)
    requires SentOnce(login, s) && !Exposed(s) && NewSenders(s, r) && LogsNoSend(s, r)
    ensures SentOnce(login, r)
  {
    if r.log != s.log {
      OneMoreEvent(login, s.log, r.log[|s.log|]);
    }
  }

  lemma SendKeepsSentOnce(md5: seq<byte> -> Digest, login: seq<byte>, s: State, t: nat, sent: int)
    requires Inv(md5, login, s) && SentOnce(login, s) && t < |s.threads| && s.threads[t].Sending?
    ensures SentOnce(login, StepHook(s, t, sent))
  {
    OneSender(md5, login, s, t);
    SendStep(s, t, sent);
    var r := StepHook(s, t, sent);
    hide StepHook;
    if r.log != s.log {
      var k: nat :| k <= |s.packet| && r.log == s.log + [HostSent(s.packet[..k])];
      OneMoreEvent(login, s.log, HostSent(s.packet[..k]));
    }
  }

  lemma OneSender(md5: seq<byte> -> Digest, login: seq<byte>, s: State, t: nat)
    requires Inv(md5, login, s) && t < |s.threads| && s.threads[t].Sending?
    ensures s.packet == login && s.requestSent
    ensures forall u :: 0 <= u < |s.threads| && u != t ==> !HoldsPacket(s.threads[u])
  {
    assert HoldsPacket(s.threads[t]);
  }

  lemma {:induction false} UnexposedRunKeepsSentOnce(md5: seq<byte> -> Digest, viewPort: uint16, login: seq<byte>,
                                                     s: State, actions: seq<Action>)
    requires Inv(md5, login, s) && SentOnce(login, s) && NeverExposed(md5, viewPort, s, actions)
    ensures SentOnce(login, Run(md5, viewPort, s, actions))
  {
    hide Step, Inv, SentOnce, Exposed;
    if actions != [] {
      var n := |actions| - 1;
      var before := Run(md5, viewPort, s, actions[..n]);
      assert NeverExposed(md5, viewPort, s, actions[..n]) by {
        forall i | 0 <= i < n ensures !Exposed(Run(md5, viewPort, s, actions[..n][..i])) {
          assert actions[..n][..i] == actions[..i];
        }
      }
      UnexposedRunKeepsSentOnce(md5, viewPort, login, s, actions[..n]);
      RunKeepsInv(md5, viewPort, login, s, actions[..n]);
      StepKeepsSentOnce(md5, viewPort, login, before, actions[n]);
    }
  }

  /** A run that is never exposed sends once: what the host injects is a beginning of the
      login, and the whole login and nothing else when a full send is counted. */
  lemma UnexposedRunsSendOnce(md5: seq<byte> -> Digest, viewPort: uint16, login: seq<byte>, threads: nat,
                              actions: seq<Action>)
    requires NeverExposed(md5, viewPort, Armed(login, threads), actions)
    ensures var log := Run(md5, viewPort, Armed(login, threads), actions).log;
            && Attempts(log) <= 1
            && Injected(log) <= login
            && (Count(login, log).fullSends == 1 ==> Injected(log) == login)
  {
    UnexposedRunKeepsSentOnce(md5, viewPort, login, Armed(login, threads), actions);
  }

  lemma RunOn(md5: seq<byte> -> Digest, viewPort: uint16, s: State, actions: seq<Action>, a: Action, m: State)
    requires Run(md5, viewPort, s, actions) == m
    ensures Run(md5, viewPort, s, actions + [a]) == Step(md5, viewPort, m, a)
  {
    var more := actions + [a];
    assert more[..|more| - 1] == actions;
  }

  /** And exposure is enough: from any exposed state two steps of one thread send again,
      behind what is already on the stream. */
  lemma ExposedRunsSendAgain(md5: seq<byte> -> Digest, viewPort: uint16, s: State, actions: seq<Action>)
    returns (more: seq<Action>)
    requires Exposed(Run(md5, viewPort, s, actions))
    ensures var before, log := Run(md5, viewPort, s, actions), Run(md5, viewPort, s, actions + more).log;
            && Attempts(log) == Attempts(before.log) + 1
            && Injected(log) == Injected(before.log) + before.packet
  {
    hide Run, Step, StepHook;
    var m := Run(md5, viewPort, s, actions);
    var t :| 0 <= t < |m.threads| && m.threads[t].Exchange?;
    var first, second := HookStep(t, 0), HookStep(t, |m.packet|);
    SendsAgain(md5, viewPort, m, t);
    RunOn(md5, viewPort, s, actions, first, m);
    RunOn(md5, viewPort, s, actions + [first], second, Step(md5, viewPort, m, first));
    more := [first, second];
    assert actions + more == (actions + [first]) + [second];
    OneMoreEvent([], m.log, HostSent(m.packet));
  }

  lemma SendsAgain(md5: seq<byte> -> Digest, viewPort: uint16, m: State, t: nat)
    requires t < |m.threads| && m.threads[t].Exchange? && !m.requestSent
    ensures Step(md5, viewPort, Step(md5, viewPort, m, HookStep(t, 0)), HookStep(t, |m.packet|)).log
         == m.log + [HostSent(m.packet)]
  {
    ExchangeMoves(m, t, 0);
    assert Step(md5, viewPort, m, HookStep(t, 0)) == At(m.(requestSent := true), t, Sending);
  }

  // ------------------------------------------------------------- one thread

  /** Alone in the hook, the thread stores its failure before it tests again. */
  predicate Alone(s: State) {
    |s.threads| <= 1
    && forall t :: 0 <= t < |s.threads| ==>
         && (Attempts(s.log) > 0 ==> s.requestSent || s.failed || s.threads[t].SetFailed?)
         && (s.threads[t].Exchange? ==> !s.failed)
  }

  lemma AloneIsNotExposed(s: State)
    requires Alone(s)
    ensures !Exposed(s)
  {
  }

  lemma HookKeepsAlone(md5: seq<byte> -> Digest, login: seq<byte>, s: State, t: nat, sent: int)
    requires Inv(md5, login, s) && Alone(s) && t < |s.threads|
    ensures Alone(StepHook(s, t, sent))
  {
    hide StepHook, Inv;
    if s.threads[t].Sending? {
      OneSender(md5, login, s, t);
      SendStep(s, t, sent);
      SendMoves(s, t, sent);
    } else {
      HookStepMoves(s, t, sent);
    }
  }

  lemma SendMoves(s: State, t: nat, sent: int)
    requires t < |s.threads| && s.threads[t].Sending?
    ensures var r := StepHook(s, t, sent);
            && r.requestSent == s.requestSent && r.failed == s.failed
            && (r.threads[t].Zeroing? || r.threads[t].ResetSent?)
  {
  }

  lemma StepKeepsAlone(md5: seq<byte> -> Digest, viewPort: uint16, login: seq<byte>, s: State, a: Action)
    requires Inv(md5, login, s) && Alone(s)
    ensures Alone(Step(md5, viewPort, s, a))
  {
    if a.HookStep? {
      if a.t < |s.threads| {
        HookKeepsAlone(md5, login, s, a.t, a.sent);
      }
    } else {
      OtherStepSends(md5, viewPort, s, a);
      var r := Step(md5, viewPort, s, a);
      if r.log != s.log {
        OneMoreEvent(login, s.log, r.log[|s.log|]);
      }
      OtherStepMoves(md5, viewPort, s, a);
    }
  }

  predicate KeepsTests(s: State, r: State) {
    && |r.threads| == |s.threads| && r.requestSent == s.requestSent && r.failed == s.failed
    && forall t :: 0 <= t < |s.threads| ==>
         && (r.threads[t].Exchange? ==> s.threads[t].Exchange?)
         && (s.threads[t].SetFailed? ==> r.threads[t].SetFailed?)
  }

  lemma PollStepMoves(md5: seq<byte> -> Digest, s: State, t: nat, peek: Peek, up: bool)
    requires t < |s.threads| && s.threads[t].Polling?
    ensures KeepsTests(s, StepPoll(md5, s, t, peek, up))
  {
  }

  lemma OtherStepMoves(md5: seq<byte> -> Digest, viewPort: uint16, s: State, a: Action)
    requires !a.HookStep?
    ensures KeepsTests(s, Step(md5, viewPort, s, a))
  {
    if a.PollStep? && a.t < |s.threads| && s.threads[a.t].Polling? {
      PollStepMoves(md5, s, a.t, a.peek, a.up);
      hide StepPoll;
    }
  }

  lemma {:induction false} AloneRunIsNeverExposed(md5: seq<byte> -> Digest, viewPort: uint16, login: seq<byte>,
                                                  s: State, actions: seq<Action>)
    requires Inv(md5, login, s) && Alone(s)
    ensures Alone(Run(md5, viewPort, s, actions)) && NeverExposed(md5, viewPort, s, actions)
  {
    hide Step, Inv, Alone, Exposed;
    if actions != [] {
      var n := |actions| - 1;
      AloneRunIsNeverExposed(md5, viewPort, login, s, actions[..n]);
      RunKeepsInv(md5, viewPort, login, s, actions[..n]);
      var before := Run(md5, viewPort, s, actions[..n]);
      AloneIsNotExposed(before);
      StepKeepsAlone(md5, viewPort, login, before, actions[n]);
      forall i | 0 <= i < |actions| ensures !Exposed(Run(md5, viewPort, s, actions[..i])) {
        if i < n {
          assert actions[..i] == actions[..n][..i];
        }
      }
    }
  }

  // ------------------------------------------------------------ two threads

  /** The state in which threads 0 and 1 are at `p` and `q` and the rest is as in `w`. */
  function Two(w: State, p: Pc, q: Pc): State
    requires |w.threads| >= 2
  {
    At(At(w, 0, p), 1, q)
  }

  lemma TwoSteps(w: State, p: Pc, q: Pc, r: Pc)
    requires |w.threads| >= 2
    ensures At(Two(w, p, q), 0, r) == Two(w, r, q) && At(Two(w, p, q), 1, r) == Two(w, p, r)
    ensures Two(w, p, q).threads[0] == p && Two(w, p, q).threads[1] == q
  {
    assert w.threads[0 := p][1 := q][0 := r] == w.threads[0 := r][1 := q];
    assert w.threads[0 := p][1 := q][1 := r] == w.threads[0 := p][1 := r];
  }

  /** One action of a run that has got to `m`. */
  lemma Onwards(md5: seq<byte> -> Digest, viewPort: uint16, s: State, actions: seq<Action>, a: Action, m: State, r: State)
    requires Run(md5, viewPort, s, actions) == m && Step(md5, viewPort, m, a) == r
    ensures Run(md5, viewPort, s, actions + [a]) == r
  {
    RunOn(md5, viewPort, s, actions, a, m);
  }

  /** Both threads test for failure, then thread 0 wins the exchange. */
  lemma BothPastTheirTests(md5: seq<byte> -> Digest, viewPort: uint16, w: State) returns (actions: seq<Action>)
    requires |w.threads| >= 2 && w.threads[0].Idle? && w.threads[1].Idle?
    requires w.enabled && !w.ready && !w.failed && !w.requestSent
    ensures Run(md5, viewPort, w, actions) == Two(w.(requestSent := true), Sending, Exchange)
  {
    hide Run;
    assert Two(w, Idle, Idle) == w by { assert w.threads[0 := Idle][1 := Idle] == w.threads; }
    EmptyRun(md5, viewPort, w);
    actions := [];
    TwoSteps(w, Idle, Idle, TestReady);
    Onwards(md5, viewPort, w, actions, FourByteReceive(0), Two(w, Idle, Idle), Two(w, TestReady, Idle));
    actions := actions + [FourByteReceive(0)];
    TwoSteps(w, TestReady, Idle, TestFailed);
    Onwards(md5, viewPort, w, actions, HookStep(0, 0), Two(w, TestReady, Idle), Two(w, TestFailed, Idle));
    actions := actions + [HookStep(0, 0)];
    TwoSteps(w, TestFailed, Idle, Exchange);
    Onwards(md5, viewPort, w, actions, HookStep(0, 0), Two(w, TestFailed, Idle), Two(w, Exchange, Idle));
    actions := actions + [HookStep(0, 0)];
    actions := SecondPastItsTest(md5, viewPort, w, actions);
  }

  lemma EmptyRun(md5: seq<byte> -> Digest, viewPort: uint16, s: State)
    ensures Run(md5, viewPort, s, []) == s
  {
  }

  lemma SecondPastItsTest(md5: seq<byte> -> Digest, viewPort: uint16, w: State, before: seq<Action>)
    returns (actions: seq<Action>)
    requires |w.threads| >= 2 && w.enabled && !w.ready && !w.failed && !w.requestSent
    requires Run(md5, viewPort, w, before) == Two(w, Exchange, Idle)
    ensures Run(md5, viewPort, w, actions) == Two(w.(requestSent := true), Sending, Exchange)
  {
    hide Run;
    actions := before;
    TwoSteps(w, Exchange, Idle, TestReady);
    Onwards(md5, viewPort, w, actions, FourByteReceive(1), Two(w, Exchange, Idle), Two(w, Exchange, TestReady));
    actions := actions + [FourByteReceive(1)];
    TwoSteps(w, Exchange, TestReady, TestFailed);
    Onwards(md5, viewPort, w, actions, HookStep(1, 0), Two(w, Exchange, TestReady), Two(w, Exchange, TestFailed));
    actions := actions + [HookStep(1, 0)];
    TwoSteps(w, Exchange, TestFailed, Exchange);
    Onwards(md5, viewPort, w, actions, HookStep(1, 0), Two(w, Exchange, TestFailed), Two(w, Exchange, Exchange));
    actions := actions + [HookStep(1, 0)];
    var won := w.(requestSent := true);
    TwoSteps(won, Exchange, Exchange, Sending);
    Onwards(md5, viewPort, w, actions, HookStep(0, 0), Two(w, Exchange, Exchange), Two(won, Sending, Exchange));
    actions := actions + [HookStep(0, 0)];
  }

  /** With two threads the host can send a piece of the login and then all of it. */
  lemma TwoThreadsSendTwice(md5: seq<byte> -> Digest, viewPort: uint16, login: seq<byte>, threads: nat, k: nat)
    returns (actions: seq<Action>)
    requires threads >= 2 && k < |login|
    ensures var log := Run(md5, viewPort, Armed(login, threads), actions).log;
            Attempts(log) == 2 && Injected(log) == login[..k] + login
  {
    var w := Armed(login, threads);
    var first := BothPastTheirTests(md5, viewPort, w);
    var second := PieceSent(md5, viewPort, w, first, k);
    hide Run;
    var more := ExposedRunsSendAgain(md5, viewPort, w, second);
    actions := second + more;
  }

  /** Thread 0 sends a piece and clears the flag while thread 1 is past its test. */
  lemma PieceSent(md5: seq<byte> -> Digest, viewPort: uint16, w: State, before: seq<Action>, k: nat)
    returns (actions: seq<Action>)
    requires |w.threads| >= 2 && w.log == [] && k < |w.packet|
    requires Run(md5, viewPort, w, before) == Two(w.(requestSent := true), Sending, Exchange)
    ensures var s := Run(md5, viewPort, w, actions);
            && Exposed(s) && s.packet == w.packet
            && Attempts(s.log) == 1 && Injected(s.log) == w.packet[..k]
  {
    hide Run;
    var won := w.(requestSent := true);
    TwoSteps(won, Sending, Exchange, ResetSent);
    var sent := Log(won, HostSent(w.packet[..k]));
    TwoSteps(sent, ResetSent, Exchange, SetFailed);
    Onwards(md5, viewPort, w, before, HookStep(0, k), Two(won, Sending, Exchange), Two(sent, ResetSent, Exchange));
    var reset := sent.(requestSent := false);
    Onwards(md5, viewPort, w, before + [HookStep(0, k)], HookStep(0, 0),
            Two(sent, ResetSent, Exchange), Two(reset, SetFailed, Exchange));
    actions := before + [HookStep(0, k)] + [HookStep(0, 0)];
    TwoSteps(reset, SetFailed, Exchange, Idle);
    ExposedAfterPiece(reset, w.packet[..k]);
  }

  lemma ExposedAfterPiece(s: State, piece: seq<byte>)
    requires |s.threads| >= 2 && !s.requestSent && s.log == [] + [HostSent(piece)]
    ensures Exposed(Two(s, SetFailed, Exchange)) && Attempts(s.log) == 1 && Injected(s.log) == piece
  {
    OneMoreEvent([], [], HostSent(piece));
    assert Two(s, SetFailed, Exchange).threads[1].Exchange?;
  }

  ghost predicate AlwaysSendsOnce(md5: seq<byte> -> Digest, viewPort: uint16, login: seq<byte>, threads: nat) {
    forall actions :: Attempts(Run(md5, viewPort, Armed(login, threads), actions).log) <= 1
  }

  /** One send attempt per arming, exactly when at most one thread ever runs the hook. */
  lemma SendsOnceExactlyAlone(md5: seq<byte> -> Digest, viewPort: uint16, login: seq<byte>, threads: nat)
    requires login != []
    ensures AlwaysSendsOnce(md5, viewPort, login, threads) <==> threads <= 1
  {
    if threads <= 1 {
      forall actions ensures Attempts(Run(md5, viewPort, Armed(login, threads), actions).log) <= 1 {
        AloneRunIsNeverExposed(md5, viewPort, login, Armed(login, threads), actions);
        UnexposedRunsSendOnce(md5, viewPort, login, threads, actions);
      }
    } else {
      var actions := TwoThreadsSendTwice(md5, viewPort, login, threads, 0);
    }
  }

  /** And then the server does not see a login: ten bytes of the real packet followed by
      all of it are no beginning of that packet. */
  lemma TwoThreadsCanBreakTheStream(md5: seq<byte> -> Digest, viewPort: uint16, hash: SessionHash, version: ClientVersion,
                                    threads: nat)
    returns (actions: seq<Action>)
    requires threads >= 2
    ensures var login := ViewLogin(hash, version);
            var log := Run(md5, viewPort, Armed(login, threads), actions).log;
            Injected(log) == login[..10] + login && !(login <= Injected(log)) && Count(login, log).fullSends <= 1
  {
    var login := ViewLogin(hash, version);
    actions := TwoThreadsSendTwice(md5, viewPort, login, threads, 10);
    AtMostOneFullSend(md5, viewPort, login, threads, actions);
    assert login[..10] + login != [] && login[10] == 0 && login[0] == 152 by {
      assert login[8..12] == Le32(0x26) && login[0..4] == Le32(VIEW_LOGIN_SIZE);
      assert Le32(0x26)[2] == 0 && Le32(152)[0] == 152;
    }
    assert (login[..10] + login)[10] == 152;
  }

  // ------------------------------------------------- the count law, in bytes

  /** A view login the guest sends: 152 bytes to the view port with command 26 00 00 00. */
  predicate SendsLogin(viewPort: uint16, a: Action) {
    a.GuestSend? && a.port == viewPort && |a.bytes| == 152 && a.bytes[8..12] == [0x26, 0, 0, 0]
  }

  function LoginsSent(viewPort: uint16, actions: seq<Action>): nat {
    if actions == [] then 0
    else LoginsSent(viewPort, actions[..|actions| - 1]) + if SendsLogin(viewPort, actions[|actions| - 1]) then 1 else 0
  }

  predicate IsLoginEvent(e: Event) {
    e.GuestLoginConsumed? || e.GuestLoginPassed?
  }

  predicate LogsNoLogin(s: State, r: State) {
    r.log == s.log || (|r.log| == |s.log| + 1 && r.log == s.log + [r.log[|s.log|]] && !IsLoginEvent(r.log[|s.log|]))
  }

  lemma HookLogsNoLogin(s: State, t: nat, sent: int)
    requires t < |s.threads|
    ensures LogsNoLogin(s, StepHook(s, t, sent))
  {
    if s.threads[t].Sending? {
      SendStep(s, t, sent);
    } else {
      HookStepMoves(s, t, sent);
    }
    hide StepHook;
  }

  lemma PollLogsNoLogin(md5: seq<byte> -> Digest, s: State, t: nat, peek: Peek, up: bool)
    requires t < |s.threads| && s.threads[t].Polling?
    ensures LogsNoLogin(s, StepPoll(md5, s, t, peek, up))
  {
  }

  lemma GuestSendLogs(md5: seq<byte> -> Digest, viewPort: uint16, s: State, a: Action)
    requires a.GuestSend?
    ensures var r := Step(md5, viewPort, s, a);
            if SendsLogin(viewPort, a) then
              && r == s.(loginPending := false, log := r.log)
              && r.log == s.log + [if s.loginPending then GuestLoginConsumed else GuestLoginPassed]
            else
              r == s.(log := s.log + [OtherSendPassed])
  {
    LobbyBridge.ConsumedInBytes(viewPort, true, a.port, a.bytes);
  }

  lemma OtherStepLogsNoLogin(md5: seq<byte> -> Digest, viewPort: uint16, s: State, a: Action)
    requires !a.GuestSend?
    ensures LogsNoLogin(s, Step(md5, viewPort, s, a))
  {
    match a
    case HookStep(t, sent) =>
      if t < |s.threads| {
        HookLogsNoLogin(s, t, sent);
      }
    case PollStep(t, peek, up) =>
      if t < |s.threads| && s.threads[t].Polling? {
        PollLogsNoLogin(md5, s, t, peek, up);
      }
    case _ =>
  }

  lemma StepCountsLogins(md5: seq<byte> -> Digest, viewPort: uint16, login: seq<byte>, s: State, a: Action)
    ensures Count(login, Step(md5, viewPort, s, a).log).guestLogins
         == Count(login, s.log).guestLogins + if SendsLogin(viewPort, a) then 1 else 0
  {
    hide Step, Count;
    var r := Step(md5, viewPort, s, a);
    if a.GuestSend? {
      GuestSendLogs(md5, viewPort, s, a);
      var e := if !SendsLogin(viewPort, a) then OtherSendPassed
               else if s.loginPending then GuestLoginConsumed else GuestLoginPassed;
      OneMoreLogin(login, s.log, e);
    } else {
      OtherStepLogsNoLogin(md5, viewPort, s, a);
      if r.log != s.log {
        OneMoreLogin(login, s.log, r.log[|s.log|]);
      }
    }
  }

  lemma OneMoreLogin(login: seq<byte>, log: seq<Event>, e: Event)
    ensures Count(login, log + [e]).guestLogins == Count(login, log).guestLogins + if IsLoginEvent(e) then 1 else 0
  {
    OneMoreEvent(login, log, e);
  }

  lemma {:induction false} RunCountsLogins(md5: seq<byte> -> Digest, viewPort: uint16, login: seq<byte>, s: State,
                                           actions: seq<Action>)
    ensures Count(login, Run(md5, viewPort, s, actions).log).guestLogins
         == Count(login, s.log).guestLogins + LoginsSent(viewPort, actions)
  {
    hide Step, SendsLogin, Count;
    if actions != [] {
      var n := |actions| - 1;
      RunCountsLogins(md5, viewPort, login, s, actions[..n]);
      StepCountsLogins(md5, viewPort, login, Run(md5, viewPort, s, actions[..n]), actions[n]);
    }
  }

  /** Login-count conservation over what the guest actually sent: of g sends of 152 bytes
      with command 0x26 to the view port one is consumed, so with the i <= 1 whole logins
      the host injected the server gets g - 1 + i, and i if the guest sent none. */
  lemma ServerGetsEachLoginOnce(md5: seq<byte> -> Digest, viewPort: uint16, login: seq<byte>, threads: nat,
                                actions: seq<Action>)
    ensures var s := Run(md5, viewPort, Armed(login, threads), actions);
            var c, g := Count(login, s.log), LoginsSent(viewPort, actions);
            && c.fullSends <= 1
            && c.serverLogins == (if g >= 1 then g - 1 else 0) + c.fullSends
            && s.loginPending == (g == 0)
  {
    RunCountsLogins(md5, viewPort, login, Armed(login, threads), actions);
    ServerSeesEachLoginOnce(md5, viewPort, login, threads, actions);
    ArmedRunKeepsInv(md5, viewPort, login, threads, actions);
    hide Run;
  }
}
