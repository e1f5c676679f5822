/** The interleaved hook and the sequential one are the same code: a thread whose receive
    is not interrupted takes the fine-grained steps to exactly the state the sequential
    specification gives. */
module ViewLoginAtomicity {
  import opened Bytes
  import opened LobbyPackets
  import opened ViewLoginInterleavings
  import ViewBootstrap

  predicate Own(t: nat, a: Action) {
    (a.FourByteReceive? || a.HookStep? || a.PollStep?) && a.t == t
  }

  /** Thread `t`, running alone, gets from `s` to `r`. */
  ghost predicate Reaches(md5: seq<byte> -> Digest, viewPort: uint16, s: State, t: nat, r: State) {
    exists actions: seq<Action> ::
      (forall i :: 0 <= i < |actions| ==> Own(t, actions[i])) && Run(md5, viewPort, s, actions) == r
  }

  lemma ReachesItself(md5: seq<byte> -> Digest, viewPort: uint16, s: State, t: nat)
    ensures Reaches(md5, viewPort, s, t, s)
  {
    assert Run(md5, viewPort, s, []) == s;
  }

  lemma ReachesNext(md5: seq<byte> -> Digest, viewPort: uint16, s: State, t: nat, m: State, a: Action)
    requires Reaches(md5, viewPort, s, t, m) && Own(t, a)
    ensures Reaches(md5, viewPort, s, t, Step(md5, viewPort, m, a))
  {
    var actions: seq<Action> :|
      (forall i :: 0 <= i < |actions| ==> Own(t, actions[i])) && Run(md5, viewPort, s, actions) == m;
    var more := actions + [a];
    assert more[..|more| - 1] == actions;
    assert Run(md5, viewPort, s, more) == Step(md5, viewPort, m, a);
  }

  /** One solo step of the hook, from `pc` to `pc'` and from `w` to `w'`. */
  lemma Goes(md5: seq<byte> -> Digest, viewPort: uint16, s: State, t: nat, sent: int, w: State, pc: Pc, w': State, pc': Pc)
    requires t < |w.threads| && w'.threads == w.threads
    requires Reaches(md5, viewPort, s, t, At(w, t, pc))
    requires var m := At(w, t, pc); StepHook(m, t, sent) == At(w'.(threads := m.threads), t, pc')
    ensures Reaches(md5, viewPort, s, t, At(w', t, pc'))
  {
    ReachesNext(md5, viewPort, s, t, At(w, t, pc), HookStep(t, sent));
    assert At(w, t, pc).threads[t := pc'] == w.threads[t := pc'];
  }

  /** The same for a poll. */
  lemma Polls(md5: seq<byte> -> Digest, viewPort: uint16, s: State, t: nat, peek: Peek, up: bool, w: State, n: nat,
              w': State, pc': Pc)
    requires t < |w.threads| && w'.threads == w.threads
    requires Reaches(md5, viewPort, s, t, At(w, t, Polling(n)))
    requires var m := At(w, t, Polling(n)); StepPoll(md5, m, t, peek, up) == At(w'.(threads := m.threads), t, pc')
    ensures Reaches(md5, viewPort, s, t, At(w', t, pc'))
  {
    ReachesNext(md5, viewPort, s, t, At(w, t, Polling(n)), PollStep(t, peek, up));
    assert At(w, t, Polling(n)).threads[t := pc'] == w.threads[t := pc'];
  }

  lemma {:induction false} SoloZeroes(md5: seq<byte> -> Digest, viewPort: uint16, s: State, t: nat, w: State, i: nat)
    requires t < |w.threads| && |w.packet| == 152 && i <= 152
    requires forall j :: 0 <= j < i ==> w.packet[j] == 0
    requires Reaches(md5, viewPort, s, t, At(w, t, Zeroing(i)))
    ensures Reaches(md5, viewPort, s, t, At(w.(packet := Zeros(152)), t, TestSent))
    decreases 152 - i
  {
    hide Reaches;
    if i < 152 {
      var w' := w.(packet := w.packet[i := 0]);
      Goes(md5, viewPort, s, t, 0, w, Zeroing(i), w', Zeroing(i + 1));
      SoloZeroes(md5, viewPort, s, t, w', i + 1);
    } else {
      assert w.packet == Zeros(152);
      Goes(md5, viewPort, s, t, 0, w, Zeroing(i), w, TestSent);
    }
  }

  /** The oracle's peeks see the bytes that wait on the socket. */
  predicate Consistent(c: ViewBootstrap.Receive, i: nat, inbound: seq<byte>) {
    c.peeks(i).count == 40 ==> |inbound| >= 40 && c.peeks(i).bytes == inbound[..40]
  }

  function AsPeek(p: ViewBootstrap.Peek): Peek {
    if p.count == 0 then PeekClosed else if p.count > 0 then PeekBytes(p.count) else PeekFailed
  }

  function AfterPolls(md5: seq<byte> -> Digest, w: State, c: ViewBootstrap.Receive): State
    requires ViewBootstrap.Answered(md5, c) ==> |w.inbound| >= 40
  {
    if ViewBootstrap.Answered(md5, c) then Log(w, PeekPassed(w.inbound[..40])).(ready := true)
    else w.(failed := true)
  }

  lemma PassingPeek(md5: seq<byte> -> Digest, c: ViewBootstrap.Receive, i: nat)
    requires ViewBootstrap.Passes(md5, c, i)
    ensures c.peeks(i).count == 40 && IsCompleteKeyResponse(md5, c.ups(i), c.peeks(i).bytes)
  {
  }

  lemma AnswersWait(md5: seq<byte> -> Digest, w: State, c: ViewBootstrap.Receive)
    requires forall i: nat :: Consistent(c, i, w.inbound)
    ensures ViewBootstrap.Answered(md5, c) ==> |w.inbound| >= 40
  {
    if ViewBootstrap.Answered(md5, c) {
      var i: nat :| ViewBootstrap.Passes(md5, c, i);
      PassingPeek(md5, c, i);
      assert Consistent(c, i, w.inbound);
    }
  }

  lemma SoloPasses(md5: seq<byte> -> Digest, viewPort: uint16, s: State, t: nat, w: State,
                   c: ViewBootstrap.Receive, n: nat)
    requires t < |w.threads| && n < 500 && Consistent(c, n, w.inbound) && ViewBootstrap.Passes(md5, c, n)
    requires Reaches(md5, viewPort, s, t, At(w, t, Polling(n)))
    ensures |w.inbound| >= 40
    ensures Reaches(md5, viewPort, s, t, At(Log(w, PeekPassed(w.inbound[..40])).(ready := true), t, Idle))
  {
    hide Reaches;
    PassingPeek(md5, c, n);
    var w' := Log(w, PeekPassed(w.inbound[..40]));
    PassingPoll(md5, At(w, t, Polling(n)), t, c.ups(n));
    Polls(md5, viewPort, s, t, PeekBytes(40), c.ups(n), w, n, w', SetReady);
    SoloSetsReady(md5, viewPort, s, t, w');
  }

  lemma PassingPoll(md5: seq<byte> -> Digest, m: State, t: nat, up: bool)
    requires t < |m.threads| && m.threads[t].Polling? && m.threads[t].attempt < 500
    requires |m.inbound| >= 40 && IsCompleteKeyResponse(md5, up, m.inbound[..40])
    ensures StepPoll(md5, m, t, PeekBytes(40), up) == At(Log(m, PeekPassed(m.inbound[..40])), t, SetReady)
  {
  }

  lemma SoloSetsReady(md5: seq<byte> -> Digest, viewPort: uint16, s: State, t: nat, w: State)
    requires t < |w.threads|
    requires Reaches(md5, viewPort, s, t, At(w, t, SetReady))
    ensures Reaches(md5, viewPort, s, t, At(w.(ready := true), t, Idle))
  {
    hide Reaches;
    Goes(md5, viewPort, s, t, 0, w, SetReady, w.(ready := true), Idle);
  }

  lemma SoloFails(md5: seq<byte> -> Digest, viewPort: uint16, s: State, t: nat, w: State, n: nat)
    requires t < |w.threads|
    requires Reaches(md5, viewPort, s, t, At(w, t, Polling(n)))
    ensures Reaches(md5, viewPort, s, t, At(w.(failed := true), t, Idle))
  {
    hide Reaches;
    Polls(md5, viewPort, s, t, PeekClosed, true, w, n, w, ExchangeFailed);
    Goes(md5, viewPort, s, t, 0, w, ExchangeFailed, w.(failed := true), Idle);
  }

  lemma {:induction false} SoloPolls(md5: seq<byte> -> Digest, viewPort: uint16, s: State, t: nat, w: State,
                                     c: ViewBootstrap.Receive, n: nat)
    requires t < |w.threads| && n <= 500
    requires forall i: nat :: Consistent(c, i, w.inbound)
    requires forall j: nat :: j < n ==> !ViewBootstrap.Passes(md5, c, j) && !ViewBootstrap.Closes(c, j)
    requires Reaches(md5, viewPort, s, t, At(w, t, Polling(n)))
    requires ViewBootstrap.Answered(md5, c) ==> |w.inbound| >= 40
    ensures Reaches(md5, viewPort, s, t, At(AfterPolls(md5, w, c), t, Idle))
    decreases 500 - n
  {
    hide Reaches;
    assert Consistent(c, n, w.inbound);
    if n < 500 && ViewBootstrap.Passes(md5, c, n) {
      assert ViewBootstrap.Answered(md5, c);
      SoloPasses(md5, viewPort, s, t, w, c, n);
    } else if n == 500 || ViewBootstrap.Closes(c, n) {
      NotAnswered(md5, c, n);
      SoloFails(md5, viewPort, s, t, w, n);
    } else {
      SoloMisses(md5, viewPort, s, t, w, c, n);
      SoloPolls(md5, viewPort, s, t, w, c, n + 1);
    }
  }

  lemma NotAnswered(md5: seq<byte> -> Digest, c: ViewBootstrap.Receive, n: nat)
    requires forall j: nat :: j < n ==> !ViewBootstrap.Passes(md5, c, j)
    requires n == 500 || (ViewBootstrap.Closes(c, n) && n < 500)
    ensures !ViewBootstrap.Answered(md5, c)
  {
    if n < 500 {
      assert !ViewBootstrap.Passes(md5, c, n);
    }
  }

  lemma SoloMisses(md5: seq<byte> -> Digest, viewPort: uint16, s: State, t: nat, w: State,
                   c: ViewBootstrap.Receive, n: nat)
    requires t < |w.threads| && n < 500 && Consistent(c, n, w.inbound)
    requires !ViewBootstrap.Passes(md5, c, n) && !ViewBootstrap.Closes(c, n)
    requires Reaches(md5, viewPort, s, t, At(w, t, Polling(n)))
    ensures Reaches(md5, viewPort, s, t, At(w, t, Polling(n + 1)))
  {
    hide Reaches;
    Misses(md5, At(w, t, Polling(n)), t, c, n);
    Polls(md5, viewPort, s, t, AsPeek(c.peeks(n)), c.ups(n), w, n, w, Polling(n + 1));
  }

  lemma Misses(md5: seq<byte> -> Digest, m: State, t: nat, c: ViewBootstrap.Receive, n: nat)
    requires t < |m.threads| && m.threads[t] == Polling(n) && n < 500
    requires Consistent(c, n, m.inbound)
    requires !ViewBootstrap.Passes(md5, c, n) && !ViewBootstrap.Closes(c, n)
    ensures StepPoll(md5, m, t, AsPeek(c.peeks(n)), c.ups(n)) == At(m, t, Polling(n + 1))
  {
  }

  function View(s: State, port: uint16): ViewBootstrap.Bootstrap
    requires |s.packet| == 152
  {
    ViewBootstrap.Bootstrap(s.enabled, s.requestSent, s.ready, s.failed, port, s.packet)
  }

  /** Alone from `w`, thread `t` gets to `pc` with the bootstrap at `target`: `r` is the
      state but for where `t` is, and the others, the guest's stream and the pending
      suppression are as they were. */
  ghost predicate Gets(md5: seq<byte> -> Digest, viewPort: uint16, port: uint16, w: State, t: nat, pc: Pc,
                       r: State, target: ViewBootstrap.Bootstrap)
    requires t < |w.threads|
  {
    && r.threads == w.threads && r.inbound == w.inbound && r.loginPending == w.loginPending
    && |r.packet| == 152
    && View(r, port) == target
    && Reaches(md5, viewPort, w, t, At(r, t, pc))
  }

  /** Solo from the entry of a receive on the view socket to the test of the sent flag. */
  lemma SoloSends(md5: seq<byte> -> Digest, viewPort: uint16, port: uint16, w: State, t: nat, c: ViewBootstrap.Receive)
    requires t < |w.threads| && w.threads[t].Idle? && |w.packet| == 152
    requires w.enabled && !w.ready && !w.failed
    ensures exists r: State :: Gets(md5, viewPort, port, w, t, TestSent, r, ViewBootstrap.Injected(View(w, port), c))
  {
    hide Reaches;
    ReachesItself(md5, viewPort, w, t);
    ReachesNext(md5, viewPort, w, t, w, FourByteReceive(t));
    Goes(md5, viewPort, w, t, 0, w, TestReady, w, TestFailed);
    Goes(md5, viewPort, w, t, 0, w, TestFailed, w, Exchange);
    if w.requestSent {
      Goes(md5, viewPort, w, t, 0, w, Exchange, w, TestSent);
      assert Gets(md5, viewPort, port, w, t, TestSent, w, ViewBootstrap.Injected(View(w, port), c));
    } else {
      var won := w.(requestSent := true);
      Goes(md5, viewPort, w, t, 0, w, Exchange, won, Sending);
      SoloSendOutcome(md5, viewPort, port, w, t, c);
    }
  }

  lemma SoloSendOutcome(md5: seq<byte> -> Digest, viewPort: uint16, port: uint16, w: State, t: nat,
                        c: ViewBootstrap.Receive)
    requires t < |w.threads| && w.threads[t].Idle? && |w.packet| == 152 && !w.requestSent
    requires Reaches(md5, viewPort, w, t, At(w.(requestSent := true), t, Sending))
    ensures exists r: State :: Gets(md5, viewPort, port, w, t, TestSent, r, ViewBootstrap.Injected(View(w, port), c))
  {
    hide Reaches;
    if c.sent == 152 {
      SoloFullSend(md5, viewPort, w, t);
      var r := Log(w.(requestSent := true), HostSent(w.packet)).(packet := Zeros(152));
      assert Gets(md5, viewPort, port, w, t, TestSent, r, ViewBootstrap.Injected(View(w, port), c));
    } else {
      var sending := w.(requestSent := true);
      var logged := if 0 <= c.sent < 152 then Log(sending, HostSent(w.packet[..c.sent])) else sending;
      SoloFailedSend(md5, viewPort, w, t, c.sent, logged);
      var r := logged.(requestSent := false, failed := true);
      assert Gets(md5, viewPort, port, w, t, TestSent, r, ViewBootstrap.Injected(View(w, port), c));
    }
  }

  lemma SoloFullSend(md5: seq<byte> -> Digest, viewPort: uint16, w: State, t: nat)
    requires t < |w.threads| && |w.packet| == 152
    requires Reaches(md5, viewPort, w, t, At(w.(requestSent := true), t, Sending))
    ensures Reaches(md5, viewPort, w, t,
                    At(Log(w.(requestSent := true), HostSent(w.packet)).(packet := Zeros(152)), t, TestSent))
  {
    hide Reaches;
    var logged := Log(w.(requestSent := true), HostSent(w.packet));
    Goes(md5, viewPort, w, t, 152, w.(requestSent := true), Sending, logged, Zeroing(0));
    SoloZeroes(md5, viewPort, w, t, logged, 0);
  }

  lemma SoloFailedSend(md5: seq<byte> -> Digest, viewPort: uint16, w: State, t: nat, sent: int, logged: State)
    requires t < |w.threads| && |w.packet| == 152 && sent != 152
    requires Reaches(md5, viewPort, w, t, At(w.(requestSent := true), t, Sending))
    requires var sending := w.(requestSent := true);
             logged == if 0 <= sent < 152 then Log(sending, HostSent(w.packet[..sent])) else sending
    ensures Reaches(md5, viewPort, w, t, At(logged.(requestSent := false, failed := true), t, TestSent))
  {
    hide Reaches;
    var sending := w.(requestSent := true);
    assert StepHook(At(sending, t, Sending), t, sent) == At(logged.(threads := At(sending, t, Sending).threads), t, ResetSent);
    Goes(md5, viewPort, w, t, sent, sending, Sending, logged, ResetSent);
    SoloResets(md5, viewPort, w, t, logged);
  }

  lemma SoloResets(md5: seq<byte> -> Digest, viewPort: uint16, s: State, t: nat, w: State)
    requires t < |w.threads|
    requires Reaches(md5, viewPort, s, t, At(w, t, ResetSent))
    ensures Reaches(md5, viewPort, s, t, At(w.(requestSent := false, failed := true), t, TestSent))
  {
    hide Reaches;
    var reset := w.(requestSent := false);
    Goes(md5, viewPort, s, t, 0, w, ResetSent, reset, SetFailed);
    Goes(md5, viewPort, s, t, 0, reset, SetFailed, reset.(failed := true), TestSent);
  }

  /** Past a bootstrap that is settled already, or a receive that is not on the view
      socket, straight out. */
  lemma SoloLeaves(md5: seq<byte> -> Digest, viewPort: uint16, port: uint16, w: State, t: nat)
    requires t < |w.threads| && w.threads[t].Idle? && |w.packet| == 152
    requires w.enabled && (w.ready || w.failed)
    ensures Gets(md5, viewPort, port, w, t, Idle, w, View(w, port))
  {
    hide Reaches;
    ReachesItself(md5, viewPort, w, t);
    ReachesNext(md5, viewPort, w, t, w, FourByteReceive(t));
    if w.ready {
      Goes(md5, viewPort, w, t, 0, w, TestReady, w, Idle);
    } else {
      Goes(md5, viewPort, w, t, 0, w, TestReady, w, TestFailed);
      Goes(md5, viewPort, w, t, 0, w, TestFailed, w, Idle);
    }
  }

  lemma SoloStays(md5: seq<byte> -> Digest, viewPort: uint16, port: uint16, w: State, t: nat)
    requires t < |w.threads| && w.threads[t].Idle? && |w.packet| == 152
    ensures Gets(md5, viewPort, port, w, t, Idle, w, View(w, port))
  {
    hide Reaches;
    ReachesItself(md5, viewPort, w, t);
    assert At(w, t, Idle) == w by { assert w.threads[t := Idle] == w.threads; }
  }

  /** A matching receive on an unsettled bootstrap. */
  lemma SoloMatchIsSequential(md5: seq<byte> -> Digest, viewPort: uint16, port: uint16, w: State, t: nat,
                              c: ViewBootstrap.Receive)
    requires t < |w.threads| && w.threads[t].Idle? && |w.packet| == 152
    requires w.enabled && !w.ready && !w.failed
    requires ViewBootstrap.Matches(port, c) && forall i: nat :: Consistent(c, i, w.inbound)
    ensures exists r: State :: Gets(md5, viewPort, port, w, t, Idle, r, ViewBootstrap.Handled(md5, View(w, port), c))
  {
    hide Reaches;
    SoloSends(md5, viewPort, port, w, t, c);
    var r: State :| Gets(md5, viewPort, port, w, t, TestSent, r, ViewBootstrap.Injected(View(w, port), c));
    if r.requestSent {
      Goes(md5, viewPort, w, t, 0, r, TestSent, r, Polling(0));
      AnswersWait(md5, r, c);
      SoloPolls(md5, viewPort, w, t, r, c, 0);
      assert Gets(md5, viewPort, port, w, t, Idle, AfterPolls(md5, r, c), ViewBootstrap.Handled(md5, View(w, port), c));
    } else {
      Goes(md5, viewPort, w, t, 0, r, TestSent, r, Idle);
      assert Gets(md5, viewPort, port, w, t, Idle, r, ViewBootstrap.Handled(md5, View(w, port), c));
    }
  }

  /** A thread alone in the hook, for any receive and from any state of the others: it comes
      back idle with the flags and the packet exactly as the sequential receive leaves them,
      and with the guest's stream and the pending suppression untouched. */
  lemma SoloReceiveIsSequential(md5: seq<byte> -> Digest, viewPort: uint16, port: uint16, w: State, t: nat,
                                c: ViewBootstrap.Receive)
    requires t < |w.threads| && w.threads[t].Idle? && |w.packet| == 152
    requires forall i: nat :: Consistent(c, i, w.inbound)
    ensures exists r: State :: Gets(md5, viewPort, port, w, t, Idle, r, ViewBootstrap.Handled(md5, View(w, port), c))
  {
    hide Gets;
    if !ViewBootstrap.Matches(port, c) || !w.enabled {
      SoloStays(md5, viewPort, port, w, t);
      assert ViewBootstrap.Handled(md5, View(w, port), c) == View(w, port);
    } else if w.ready || w.failed {
      SoloLeaves(md5, viewPort, port, w, t);
      assert ViewBootstrap.Handled(md5, View(w, port), c) == View(w, port);
    } else {
      SoloMatchIsSequential(md5, viewPort, port, w, t, c);
    }
  }

  lemma {:induction false} RunsJoin(md5: seq<byte> -> Digest, viewPort: uint16, s: State, first: seq<Action>, second: seq<Action>)
    ensures Run(md5, viewPort, s, first + second) == Run(md5, viewPort, Run(md5, viewPort, s, first), second)
  {
    hide Step;
    if second == [] {
      assert first + second == first;
    } else {
      var n := |second| - 1;
      RunsJoin(md5, viewPort, s, first, second[..n]);
      assert (first + second)[..|first| + n] == first + second[..n];
    }
  }

  /** The run the bootstrap is for: the server's key response is there, one thread receives,
      the login goes out whole and is wiped, the bootstrap is ready, and the guest then
      receives the response from the first byte. */
  lemma ReadyIsReachable(md5: seq<byte> -> Digest, viewPort: uint16, login: seq<byte>, threads: nat, response: seq<byte>)
    returns (actions: seq<Action>)
    requires |login| == 152 && threads >= 1 && IsCompleteKeyResponse(md5, true, response)
    ensures var s := Run(md5, viewPort, Armed(login, threads), actions);
            && s.ready && !s.failed && s.requestSent && s.packet == Zeros(152)
            && s.inbound == [] && s.log != [] && s.log[|s.log| - 1] == GuestReceived(response) && s.loginPending
  {
    var start := Armed(login, threads);
    var w := Log(start.(inbound := [] + response), ServerDelivered(response));
    assert start.threads[0] == Idle && [] + response == response;
    FirstDelivery(md5, viewPort, start, response);
    hide Run, Step, Armed, IsCompleteKeyResponse;
    var own := SoloAnswer(md5, viewPort, w, response);
    RunsJoin(md5, viewPort, start, [ServerSend(response)], own);
    var answered := [ServerSend(response)] + own;
    GuestTakesAll(md5, viewPort, start, answered, response);
    actions := answered + [GuestReceive(|response|)];
  }

  lemma GuestTakesAll(md5: seq<byte> -> Digest, viewPort: uint16, start: State, actions: seq<Action>, waiting: seq<byte>)
    requires Run(md5, viewPort, start, actions).inbound == waiting
    ensures var s := Run(md5, viewPort, start, actions);
            Run(md5, viewPort, start, actions + [GuestReceive(|waiting|)])
            == s.(inbound := [], log := s.log + [GuestReceived(waiting)])
  {
    assert (actions + [GuestReceive(|waiting|)])[..|actions|] == actions;
    assert waiting[..|waiting|] == waiting && waiting[|waiting|..] == [];
  }

  /** The first thread alone, with the response waiting. */
  lemma SoloAnswer(md5: seq<byte> -> Digest, viewPort: uint16, w: State, response: seq<byte>) returns (own: seq<Action>)
    requires |w.threads| >= 1 && w.threads[0] == Idle && |w.packet| == 152 && w.inbound == response
    requires w.enabled && !w.ready && !w.failed && !w.requestSent && IsCompleteKeyResponse(md5, true, response)
    ensures var s := Run(md5, viewPort, w, own);
            && s.ready && !s.failed && s.requestSent && s.packet == Zeros(152)
            && s.inbound == response && s.loginPending == w.loginPending
  {
    assert |response| == 40 && response[..40] == response;
    var c := ViewBootstrap.Receive(4, Some(viewPort), 152, _ => ViewBootstrap.Peek(40, response), _ => true);
    forall i: nat ensures Consistent(c, i, w.inbound) {
    }
    AnswersAtOnce(md5, View(w, viewPort), c);
    hide Run, Step, IsCompleteKeyResponse, Consistent;
    SoloReceiveIsSequential(md5, viewPort, viewPort, w, 0, c);
    hide Reaches;
    var r: State :| Gets(md5, viewPort, viewPort, w, 0, Idle, r, ViewBootstrap.Handled(md5, View(w, viewPort), c));
    own := Between(md5, viewPort, w, 0, At(r, 0, Idle));
  }

  lemma AnswersAtOnce(md5: seq<byte> -> Digest, s: ViewBootstrap.Bootstrap, c: ViewBootstrap.Receive)
    requires s.enabled && !s.ready && !s.failed && !s.requestSent
    requires c.size == 4 && c.peer == Some(s.port) && c.sent == 152
    requires c.peeks(0).count == 40 && IsCompleteKeyResponse(md5, c.ups(0), c.peeks(0).bytes)
    ensures ViewBootstrap.Handled(md5, s, c) == s.(requestSent := true, ready := true, packet := Zeros(152))
  {
    assert ViewBootstrap.Passes(md5, c, 0);
    assert ViewBootstrap.Answered(md5, c);
  }

  lemma FirstDelivery(md5: seq<byte> -> Digest, viewPort: uint16, s: State, bytes: seq<byte>)
    ensures Run(md5, viewPort, s, [ServerSend(bytes)]) == Log(s.(inbound := s.inbound + bytes), ServerDelivered(bytes))
  {
    assert Run(md5, viewPort, s, []) == s;
    assert [ServerSend(bytes)][..0] == [];
  }

  lemma Between(md5: seq<byte> -> Digest, viewPort: uint16, s: State, t: nat, r: State) returns (actions: seq<Action>)
    requires Reaches(md5, viewPort, s, t, r)
    ensures Run(md5, viewPort, s, actions) == r
  {
    hide Run;
    actions :| (forall i :: 0 <= i < |actions| ==> Own(t, actions[i])) && Run(md5, viewPort, s, actions) == r;
  }
}
