/** The fine-grained machine and the sequential methods are the same code: a guest thread,
    or the owner, that is not interrupted takes the interleaved steps to exactly the state
    the atomic specification gives. */
module MapKeyAtomicity {
  import opened Bytes
  import opened LobbyPackets
  import opened MapKeys
  import opened DirectMapKeys
  import opened WorldDatagrams
  import opened MapKeyInterleavings

  /** `n` steps of thread `t` alone. */
  function Solo(md5: seq<byte> -> Digest, s: State, t: nat, up: bool, n: nat): (r: State)
    decreases n
  {
    if n == 0 then s else Step(md5, Solo(md5, s, t, up, n - 1), GuestStep(t, up))
  }

  /** Thread `t`, running alone, gets from `s` to `r`. */
  ghost predicate Reaches(md5: seq<byte> -> Digest, s: State, t: nat, up: bool, r: State) {
    exists n: nat :: Solo(md5, s, t, up, n) == r
  }

  lemma ReachesItself(md5: seq<byte> -> Digest, s: State, t: nat, up: bool)
    ensures Reaches(md5, s, t, up, s)
  {
    assert Solo(md5, s, t, up, 0) == s;
  }

  lemma ReachesNext(md5: seq<byte> -> Digest, s: State, t: nat, up: bool, m: State)
    requires Reaches(md5, s, t, up, m)
    ensures Reaches(md5, s, t, up, Step(md5, m, GuestStep(t, up)))
  {
    var n: nat :| Solo(md5, s, t, up, n) == m;
    assert Solo(md5, s, t, up, n + 1) == Step(md5, m, GuestStep(t, up));
  }

  /** The state in which thread `t` is at `pc` and everything but the threads is as in `w`. */
  function With(w: State, t: nat, pc: GuestPc): State
    requires t < |w.guests|
  {
    w.(guests := w.guests[t := pc])
  }

  /** One solo step from `pc` to `pc'`, changing the rest from `w` to `w'`. */
  lemma Goes(md5: seq<byte> -> Digest, s: State, t: nat, up: bool, w: State, pc: GuestPc, w': State, pc': GuestPc)
    requires t < |w.guests| && w'.guests == w.guests
    requires Reaches(md5, s, t, up, With(w, t, pc))
    requires StepGuest(md5, With(w, t, pc), t, up) == With(w, t, pc).(
               session := w'.session, cipher := w'.cipher, enabled := w'.enabled, pending := w'.pending,
               reported := w'.reported, lock := w'.lock, owner := w'.owner, log := w'.log,
               guests := With(w, t, pc).guests[t := pc'])
    ensures Reaches(md5, s, t, up, With(w', t, pc'))
  {
    ReachesNext(md5, s, t, up, With(w, t, pc));
    assert With(w, t, pc).guests[t := pc'] == w.guests[t := pc'];
  }

  lemma {:induction false} SoloReads(md5: seq<byte> -> Digest, s: State, t: nat, up: bool, w: State, copy: seq<byte>)
    requires t < |w.guests| && |copy| <= 20 && copy == w.session[..|copy|]
    requires Reaches(md5, s, t, up, With(w, t, AdvRead(copy)))
    ensures Reaches(md5, s, t, up, With(w, t, AdvRead(w.session)))
    decreases 20 - |copy|
  {
    hide Reaches;
    if |copy| < 20 {
      var more := copy + [w.session[|copy|]];
      assert more == w.session[..|more|];
      Goes(md5, s, t, up, w, AdvRead(copy), w, AdvRead(more));
      SoloReads(md5, s, t, up, w, more);
    } else {
      assert copy == w.session;
    }
  }

  lemma {:induction false} SoloWritesSession(md5: seq<byte> -> Digest, s: State, t: nat, up: bool, w: State,
                                             next: Key, block: Digest, i: nat)
    requires t < |w.guests| && i <= 20 && Agree(w.session, next, i)
    requires Reaches(md5, s, t, up, With(w, t, AdvSession(next, block, i)))
    ensures Reaches(md5, s, t, up, With(w.(session := next), t, AdvCipher(next, block, 0)))
    decreases 20 - i
  {
    hide Reaches;
    if i < 20 {
      var w' := w.(session := w.session[i := next[i]]);
      Goes(md5, s, t, up, w, AdvSession(next, block, i), w', AdvSession(next, block, i + 1));
      SoloWritesSession(md5, s, t, up, w', next, block, i + 1);
    } else {
      assert w.session == next;
      Goes(md5, s, t, up, w, AdvSession(next, block, i), w, AdvCipher(next, block, 0));
    }
  }

  lemma {:induction false} SoloWritesCipher(md5: seq<byte> -> Digest, s: State, t: nat, up: bool, w: State,
                                            next: Key, block: Digest, i: nat)
    requires t < |w.guests| && i <= 16 && Agree(w.cipher, block, i)
    requires Reaches(md5, s, t, up, With(w, t, AdvCipher(next, block, i)))
    ensures Reaches(md5, s, t, up, With(w.(cipher := block), t, AdvReported))
    decreases 16 - i
  {
    hide Reaches;
    if i < 16 {
      var w' := w.(cipher := w.cipher[i := block[i]]);
      Goes(md5, s, t, up, w, AdvCipher(next, block, i), w', AdvCipher(next, block, i + 1));
      SoloWritesCipher(md5, s, t, up, w', next, block, i + 1);
    } else {
      assert w.cipher == block;
      Goes(md5, s, t, up, w, AdvCipher(next, block, i), w, AdvReported);
    }
  }

  lemma {:induction false} SoloCopies(md5: seq<byte> -> Digest, s: State, t: nat, up: bool, w: State, copied: seq<byte>)
    requires t < |w.guests| && |copied| <= 16 && copied == w.cipher[..|copied|]
    requires Reaches(md5, s, t, up, With(w, t, AppCopy(copied)))
    ensures Reaches(md5, s, t, up, With(Log(w, BlockCopied(t, w.cipher)), t, AppRelease(true)))
    decreases 16 - |copied|
  {
    hide Reaches;
    if |copied| < 16 {
      var more := copied + [w.cipher[|copied|]];
      assert more == w.cipher[..|more|];
      Goes(md5, s, t, up, w, AppCopy(copied), w, AppCopy(more));
      SoloCopies(md5, s, t, up, w, more);
    } else {
      assert copied == w.cipher;
      Goes(md5, s, t, up, w, AppCopy(copied), Log(w, BlockCopied(t, copied)), AppRelease(true));
    }
  }

  /** From the computed next key on: derive, store both arrays, publish, release. */
  lemma SoloRolls(md5: seq<byte> -> Digest, s: State, t: nat, w: State, next: Key)
    requires t < |w.guests| && Reaches(md5, s, t, true, With(w, t, AdvDerive(next)))
    ensures Reaches(md5, s, t, true,
                    With(Log(w.(session := next, cipher := Derive(md5, next), reported := false, pending := true,
                                lock := Free), KeyAdvanced), t, Idle))
  {
    hide Reaches;
    var block := Derive(md5, next);
    Goes(md5, s, t, true, w, AdvDerive(next), w, AdvSession(next, block, 0));
    SoloWritesSession(md5, s, t, true, w, next, block, 0);
    SoloWritesCipher(md5, s, t, true, w.(session := next), next, block, 0);
    SoloPublishes(md5, s, t, w.(session := next, cipher := block));
  }

  lemma SoloPublishes(md5: seq<byte> -> Digest, s: State, t: nat, w: State)
    requires t < |w.guests| && Reaches(md5, s, t, true, With(w, t, AdvReported))
    ensures Reaches(md5, s, t, true,
                    With(Log(w.(reported := false, pending := true, lock := Free), KeyAdvanced), t, Idle))
  {
    hide Reaches;
    var stored := Log(w.(reported := false, pending := true), KeyAdvanced);
    Goes(md5, s, t, true, w, AdvReported, w.(reported := false), AdvStore);
    Goes(md5, s, t, true, w.(reported := false), AdvStore, stored, AdvRelease);
    Goes(md5, s, t, true, stored, AdvRelease, stored.(lock := Free), Idle);
  }

  function View(s: State): KeyState {
    KeyState(s.session, s.cipher, s.enabled, s.reported, s.pending)
  }

  /** Everything but the threads after an atomic advance of `s`. */
  function AdvancedAtomically(md5: seq<byte> -> Digest, up: bool, s: State): State {
    var k := Advanced(md5, up, View(s));
    s.(session := k.session, cipher := k.cipher, enabled := k.enabled, reported := k.reported,
       pending := k.pending, log := s.log + if Rolls(View(s), up) then [KeyAdvanced] else [])
  }

  /** An uninterrupted advance is atomic: it ends idle, with the lock free, in the state
      `Advanced` gives, and it logs one advance exactly when the key rolled. */
  lemma SoloAdvanceIsAtomic(md5: seq<byte> -> Digest, s: State, t: nat, up: bool)
    requires t < |s.guests| && s.guests[t] == AdvWait && s.lock == Free
    ensures Reaches(md5, s, t, up, With(AdvancedAtomically(md5, up, s), t, Idle))
  {
    hide Reaches;
    var held := s.(lock := ByGuest(t));
    assert With(s, t, AdvWait) == s by { assert s.guests[t := AdvWait] == s.guests; }
    ReachesItself(md5, s, t, up);
    Goes(md5, s, t, up, s, AdvWait, held, AdvEnabled);
    if s.enabled {
      Goes(md5, s, t, up, held, AdvEnabled, held, AdvPending);
      if s.pending {
        Goes(md5, s, t, up, held, AdvPending, held, AdvRelease);
        SoloReleases(md5, s, t, up, held);
      } else {
        Goes(md5, s, t, up, held, AdvPending, held, AdvRead([]));
        SoloReads(md5, s, t, up, held, []);
        SoloFinishes(md5, s, t, up, held);
      }
    } else {
      Goes(md5, s, t, up, held, AdvEnabled, held, AdvRelease);
      SoloReleases(md5, s, t, up, held);
    }
  }

  lemma SoloReleases(md5: seq<byte> -> Digest, s: State, t: nat, up: bool, held: State)
    requires t < |s.guests| && s.lock == Free && held == s.(lock := ByGuest(t)) && !Rolls(View(s), up)
    requires Reaches(md5, s, t, up, With(held, t, AdvRelease))
    ensures Reaches(md5, s, t, up, With(AdvancedAtomically(md5, up, s), t, Idle))
  {
    hide Reaches;
    Goes(md5, s, t, up, held, AdvRelease, s, Idle);
    assert AdvancedAtomically(md5, up, s) == s by { assert s.log + [] == s.log; }
  }

  lemma SoloFinishes(md5: seq<byte> -> Digest, s: State, t: nat, up: bool, held: State)
    requires t < |s.guests| && s.lock == Free && s.enabled && !s.pending && held == s.(lock := ByGuest(t))
    requires Reaches(md5, s, t, up, With(held, t, AdvRead(held.session)))
    ensures Reaches(md5, s, t, up, With(AdvancedAtomically(md5, up, s), t, Idle))
  {
    hide Reaches;
    var next := AdvanceKey(held.session);
    Goes(md5, s, t, up, held, AdvRead(held.session), held, AdvDerive(next));
    if up {
      SoloRolls(md5, s, t, held, next);
    } else {
      Goes(md5, s, t, up, held, AdvDerive(next), held, AdvRelease);
      SoloReleases(md5, s, t, up, held);
    }
  }

  /** What an uninterrupted handoff leaves, past its first test of the flag. */
  function AppliedAtomically(s: State, t: nat): State {
    if s.enabled then Log(s.(reported := true), BlockCopied(t, s.cipher)) else s
  }

  /** An uninterrupted handoff copies the whole cipher block of the state it locked, or,
      when the flag went off before it got the lock, copies and changes nothing. */
  lemma SoloApplyIsAtomic(md5: seq<byte> -> Digest, s: State, t: nat, up: bool)
    requires t < |s.guests| && s.guests[t] == AppWait && s.lock == Free
    ensures Reaches(md5, s, t, up, With(AppliedAtomically(s, t), t, Idle))
  {
    hide Reaches;
    var held := s.(lock := ByGuest(t));
    assert With(s, t, AppWait) == s by { assert s.guests[t := AppWait] == s.guests; }
    ReachesItself(md5, s, t, up);
    Goes(md5, s, t, up, s, AppWait, held, AppEnabled);
    if s.enabled {
      Goes(md5, s, t, up, held, AppEnabled, held, AppCopy([]));
      SoloCopies(md5, s, t, up, held, []);
      SoloReports(md5, s, t, up, Log(s, BlockCopied(t, s.cipher)));
    } else {
      Goes(md5, s, t, up, held, AppEnabled, held, AppRelease(false));
      Goes(md5, s, t, up, held, AppRelease(false), s, Idle);
    }
  }

  lemma SoloReports(md5: seq<byte> -> Digest, s: State, t: nat, up: bool, w: State)
    requires t < |w.guests| && w.lock == Free
    requires Reaches(md5, s, t, up, With(w.(lock := ByGuest(t)), t, AppRelease(true)))
    ensures Reaches(md5, s, t, up, With(w.(reported := true), t, Idle))
  {
    hide Reaches;
    Goes(md5, s, t, up, w.(lock := ByGuest(t)), AppRelease(true), w, AppReport);
    Goes(md5, s, t, up, w, AppReport, w.(reported := true), Idle);
  }

  // ----------------------------------------------------------------- the owner

  /** `n` steps of the owner alone. */
  function OwnerSolo(md5: seq<byte> -> Digest, s: State, n: nat): State {
    if n == 0 then s else Step(md5, OwnerSolo(md5, s, n - 1), OwnerStep)
  }

  ghost predicate OwnerReaches(md5: seq<byte> -> Digest, s: State, r: State) {
    exists n: nat :: OwnerSolo(md5, s, n) == r
  }

  lemma OwnerReachesItself(md5: seq<byte> -> Digest, s: State)
    ensures OwnerReaches(md5, s, s)
  {
    assert OwnerSolo(md5, s, 0) == s;
  }

  lemma OwnerGoes(md5: seq<byte> -> Digest, s: State, m: State, r: State)
    requires OwnerReaches(md5, s, m) && StepOwner(md5, m) == r
    ensures OwnerReaches(md5, s, r)
  {
    var n: nat :| OwnerSolo(md5, s, n) == m;
    assert OwnerSolo(md5, s, n + 1) == Step(md5, m, OwnerStep);
  }

  lemma {:induction false} OwnerWritesWholeSession(md5: seq<byte> -> Digest, s: State, w: State, key: Key, block: Digest, i: nat)
    requires i <= 20 && Agree(w.session, key, i)
    requires OwnerReaches(md5, s, w.(owner := CfgSession(key, block, i)))
    ensures OwnerReaches(md5, s, w.(session := key, owner := CfgCipher(key, block, 0)))
    decreases 20 - i
  {
    hide OwnerReaches;
    if i < 20 {
      var w' := w.(session := w.session[i := key[i]]);
      OwnerGoes(md5, s, w.(owner := CfgSession(key, block, i)), w'.(owner := CfgSession(key, block, i + 1)));
      OwnerWritesWholeSession(md5, s, w', key, block, i + 1);
    } else {
      assert w.session == key;
      OwnerGoes(md5, s, w.(owner := CfgSession(key, block, i)), w.(owner := CfgCipher(key, block, 0)));
    }
  }

  lemma {:induction false} OwnerWritesWholeCipher(md5: seq<byte> -> Digest, s: State, w: State, key: Key, block: Digest, i: nat)
    requires i <= 16 && Agree(w.cipher, block, i)
    requires OwnerReaches(md5, s, w.(owner := CfgCipher(key, block, i)))
    ensures OwnerReaches(md5, s, Log(w.(cipher := block, owner := CfgRelease), KeyConfigured(key)))
    decreases 16 - i
  {
    hide OwnerReaches;
    if i < 16 {
      var w' := w.(cipher := w.cipher[i := block[i]]);
      OwnerGoes(md5, s, w.(owner := CfgCipher(key, block, i)), w'.(owner := CfgCipher(key, block, i + 1)));
      OwnerWritesWholeCipher(md5, s, w', key, block, i + 1);
    } else {
      assert w.cipher == block;
      OwnerGoes(md5, s, w.(owner := CfgCipher(key, block, i)), Log(w.(owner := CfgRelease), KeyConfigured(key)));
    }
  }

  lemma {:induction false} OwnerClearsWholeSession(md5: seq<byte> -> Digest, s: State, w: State, i: nat)
    requires i <= 20 && Agree(w.session, Zeros(20), i)
    requires OwnerReaches(md5, s, w.(owner := ClrSession(i)))
    ensures OwnerReaches(md5, s, w.(session := Zeros(20), owner := ClrCipher(0)))
    decreases 20 - i
  {
    hide OwnerReaches;
    if i < 20 {
      var w' := w.(session := w.session[i := 0]);
      OwnerGoes(md5, s, w.(owner := ClrSession(i)), w'.(owner := ClrSession(i + 1)));
      OwnerClearsWholeSession(md5, s, w', i + 1);
    } else {
      assert w.session == Zeros(20);
      OwnerGoes(md5, s, w.(owner := ClrSession(i)), w.(owner := ClrCipher(0)));
    }
  }

  lemma {:induction false} OwnerClearsWholeCipher(md5: seq<byte> -> Digest, s: State, w: State, i: nat)
    requires i <= 16 && Agree(w.cipher, Zeros(16), i)
    requires OwnerReaches(md5, s, w.(owner := ClrCipher(i)))
    ensures OwnerReaches(md5, s, w.(cipher := Zeros(16), owner := ClrReported))
    decreases 16 - i
  {
    hide OwnerReaches;
    if i < 16 {
      var w' := w.(cipher := w.cipher[i := 0]);
      OwnerGoes(md5, s, w.(owner := ClrCipher(i)), w'.(owner := ClrCipher(i + 1)));
      OwnerClearsWholeCipher(md5, s, w', i + 1);
    } else {
      assert w.cipher == Zeros(16);
      OwnerGoes(md5, s, w.(owner := ClrCipher(i)), w.(owner := ClrReported));
    }
  }

  /** `s` with the globals at `k` and two events more. */
  function Became(s: State, k: KeyState, e: Event): State {
    s.(session := k.session, cipher := k.cipher, enabled := k.enabled, reported := k.reported, pending := k.pending,
       log := s.log + [e] + [PendingCleared])
  }

  /** An uninterrupted Configure is atomic: it ends in the state `Configured` gives, or,
      refused, in the state it found. */
  lemma SoloConfigureIsAtomic(md5: seq<byte> -> Digest, s: State, key: seq<byte>, up: bool)
    requires s.owner.OIdle? && s.lock.Free?
    ensures OwnerReaches(md5, Step(md5, s, Configure(key, up)),
                         if |key| == 20 && up then Became(s, Configured(md5, key), KeyConfigured(key)) else s)
  {
    hide OwnerReaches;
    var start := Step(md5, s, Configure(key, up));
    OwnerReachesItself(md5, start);
    if |key| == 20 && up {
      var block := Derive(md5, key);
      var held := s.(enabled := false, lock := ByOwner);
      OwnerGoes(md5, start, start, s.(enabled := false, owner := CfgWait(key, block)));
      OwnerGoes(md5, start, s.(enabled := false, owner := CfgWait(key, block)), held.(owner := CfgSession(key, block, 0)));
      OwnerWritesWholeSession(md5, start, held, key, block, 0);
      OwnerWritesWholeCipher(md5, start, held.(session := key), key, block, 0);
      OwnerEnables(md5, start, s, key);
    }
  }

  lemma OwnerEnables(md5: seq<byte> -> Digest, start: State, s: State, key: Key)
    requires s.owner.OIdle? && s.lock.Free?
    requires OwnerReaches(md5, start, Log(s.(enabled := false, lock := ByOwner, session := key,
                                             cipher := Derive(md5, key), owner := CfgRelease), KeyConfigured(key)))
    ensures OwnerReaches(md5, start, Became(s, Configured(md5, key), KeyConfigured(key)))
  {
    hide OwnerReaches, Derive;
    var w := Log(s.(enabled := false, session := key, cipher := Derive(md5, key)), KeyConfigured(key));
    OwnerGoes(md5, start, w.(lock := ByOwner, owner := CfgRelease), w.(owner := CfgReported));
    OwnerGoes(md5, start, w.(owner := CfgReported), w.(reported := false, owner := CfgPending));
    var cleared := Log(w.(reported := false, pending := false), PendingCleared);
    OwnerGoes(md5, start, w.(reported := false, owner := CfgPending), cleared.(owner := CfgEnable));
    OwnerGoes(md5, start, cleared.(owner := CfgEnable), cleared.(enabled := true, owner := OIdle));
  }

  /** And an uninterrupted Clear ends in the state `Cleared` gives. */
  lemma SoloClearIsAtomic(md5: seq<byte> -> Digest, s: State)
    requires s.owner.OIdle? && s.lock.Free?
    ensures OwnerReaches(md5, Step(md5, s, Clear), Became(s, Cleared(), KeyCleared))
  {
    hide OwnerReaches;
    var start := Step(md5, s, Clear);
    OwnerReachesItself(md5, start);
    var held := Log(s.(enabled := false, lock := ByOwner), KeyCleared);
    OwnerGoes(md5, start, start, s.(enabled := false, owner := ClrWait));
    OwnerGoes(md5, start, s.(enabled := false, owner := ClrWait), held.(owner := ClrSession(0)));
    OwnerClearsWholeSession(md5, start, held, 0);
    OwnerClearsWholeCipher(md5, start, held.(session := Zeros(20)), 0);
    OwnerLeavesCleared(md5, start, s);
  }

  lemma OwnerLeavesCleared(md5: seq<byte> -> Digest, start: State, s: State)
    requires s.owner.OIdle? && s.lock.Free?
    requires OwnerReaches(md5, start, Log(s.(enabled := false, lock := ByOwner), KeyCleared)
                                      .(session := Zeros(20), cipher := Zeros(16), owner := ClrReported))
    ensures OwnerReaches(md5, start, Became(s, Cleared(), KeyCleared))
  {
    hide OwnerReaches;
    var w := Log(s.(enabled := false, lock := ByOwner), KeyCleared).(session := Zeros(20), cipher := Zeros(16));
    OwnerGoes(md5, start, w.(owner := ClrReported), w.(reported := false, owner := ClrPending));
    var cleared := Log(w.(reported := false, pending := false), PendingCleared);
    OwnerGoes(md5, start, w.(reported := false, owner := ClrPending), cleared.(owner := ClrRelease));
    OwnerGoes(md5, start, cleared.(owner := ClrRelease), cleared.(lock := Free, owner := OIdle));
  }

  lemma {:induction false} RunOfOwnerSteps(md5: seq<byte> -> Digest, s: State, a: Action, n: nat)
    ensures Run(md5, s, [a] + seq(n, _ => OwnerStep)) == OwnerSolo(md5, Step(md5, s, a), n)
  {
    hide Step;
    var actions := [a] + seq(n, _ => OwnerStep);
    if n == 0 {
      assert actions == [a] && actions[..0] == [];
    } else {
      RunOfOwnerSteps(md5, s, a, n - 1);
      assert actions[..n] == [a] + seq(n - 1, _ => OwnerStep) && actions[n] == OwnerStep;
    }
  }

  /** So the machine does get to an enabled state, with any key. */
  lemma EnabledIsReachable(md5: seq<byte> -> Digest, guests: nat, key: Key) returns (actions: seq<Action>)
    ensures var s := Run(md5, Initial(guests), actions);
            && s.enabled && !s.pending && s.lock.Free? && s.session == key && s.cipher == Derive(md5, key)
            && s == Became(Initial(guests), Configured(md5, key), KeyConfigured(key))
  {
    SoloConfigureIsAtomic(md5, Initial(guests), key, true);
    var r := Became(Initial(guests), Configured(md5, key), KeyConfigured(key));
    var n: nat :| OwnerSolo(md5, Step(md5, Initial(guests), Configure(key, true)), n) == r;
    RunOfOwnerSteps(md5, Initial(guests), Configure(key, true), n);
    actions := [Configure(key, true)] + seq(n, _ => OwnerStep);
  }

  // ---------------------------------------------- whole calls, from an idle thread

  /** Whatever the key's state, an idle thread that is called to advance comes back idle
      having advanced as the sequential method does. */
  lemma AdvanceFromIdle(md5: seq<byte> -> Digest, s: State, t: nat, up: bool)
    requires t < |s.guests| && s.guests[t] == Idle && s.lock == Free
    ensures Reaches(md5, Step(md5, s, CallAdvance(t)), t, up, AdvancedAtomically(md5, up, s))
  {
    hide Reaches, AdvanceKey, Derive;
    var called := At(s, t, AdvWait);
    assert Step(md5, s, CallAdvance(t)) == called;
    SoloAdvanceIsAtomic(md5, called, t, up);
    assert s.guests[t := AdvWait][t := Idle] == s.guests;
  }

  /** From any enabled state an idle thread that is called to hand off copies the cipher. */
  lemma ApplyFromIdle(md5: seq<byte> -> Digest, s: State, t: nat, up: bool)
    requires t < |s.guests| && s.guests[t] == Idle && s.lock == Free && s.enabled
    ensures Reaches(md5, Step(md5, s, CallApply(t)), t, up,
                    s.(reported := true, log := s.log + [BlockCopied(t, s.cipher)]))
  {
    hide Reaches;
    var called := At(s, t, AppWait);
    assert Step(md5, s, CallApply(t)) == called;
    SoloApplyIsAtomic(md5, called, t, up);
    assert s.guests[t := AppWait][t := Idle] == s.guests;
  }

  /** A full-size login response clears pending, whoever holds the lock, and nothing else. */
  lemma WorldLoginFromIdle(md5: seq<byte> -> Digest, s: State, t: nat)
    requires t < |s.guests| && s.guests[t] == Idle
    ensures var r := Step(md5, s, WorldLogin(t));
            !r.pending && r == s.(pending := false, log := s.log + [PendingCleared])
  {
  }

  ghost predicate RunsTo(md5: seq<byte> -> Digest, start: State, r: State) {
    exists actions :: Run(md5, start, actions) == r
  }

  lemma RunsOn(md5: seq<byte> -> Digest, start: State, m: State, a: Action)
    requires RunsTo(md5, start, m)
    ensures RunsTo(md5, start, Step(md5, m, a))
  {
    var actions :| Run(md5, start, actions) == m;
    hide Step;
    assert (actions + [a])[..|actions|] == actions;
    assert Run(md5, start, actions + [a]) == Step(md5, m, a);
  }

  lemma {:induction false} RunsSteps(md5: seq<byte> -> Digest, start: State, m: State, t: nat, up: bool, n: nat)
    requires RunsTo(md5, start, m)
    ensures RunsTo(md5, start, Solo(md5, m, t, up, n))
  {
    hide RunsTo, Step;
    if n > 0 {
      RunsSteps(md5, start, m, t, up, n - 1);
      RunsOn(md5, start, Solo(md5, m, t, up, n - 1), GuestStep(t, up));
    }
  }

  lemma RunsSolo(md5: seq<byte> -> Digest, start: State, m: State, t: nat, up: bool, r: State)
    requires RunsTo(md5, start, m) && Reaches(md5, m, t, up, r)
    ensures RunsTo(md5, start, r)
  {
    hide RunsTo;
    var n: nat :| Solo(md5, m, t, up, n) == r;
    RunsSteps(md5, start, m, t, up, n);
  }

  lemma RunsAdvance(md5: seq<byte> -> Digest, start: State, s: State, t: nat, up: bool)
    requires RunsTo(md5, start, s) && t < |s.guests| && s.guests[t] == Idle && s.lock == Free
    ensures RunsTo(md5, start, AdvancedAtomically(md5, up, s))
  {
    hide RunsTo, Reaches, Step, AdvancedAtomically;
    RunsOn(md5, start, s, CallAdvance(t));
    AdvanceFromIdle(md5, s, t, up);
    RunsSolo(md5, start, Step(md5, s, CallAdvance(t)), t, up, AdvancedAtomically(md5, up, s));
  }

  lemma RunsApply(md5: seq<byte> -> Digest, start: State, s: State, t: nat)
    requires RunsTo(md5, start, s) && t < |s.guests| && s.guests[t] == Idle && s.lock == Free && s.enabled
    ensures RunsTo(md5, start, s.(reported := true, log := s.log + [BlockCopied(t, s.cipher)]))
  {
    hide RunsTo, Reaches, Step;
    RunsOn(md5, start, s, CallApply(t));
    ApplyFromIdle(md5, s, t, true);
    RunsSolo(md5, start, Step(md5, s, CallApply(t)), t, true,
             s.(reported := true, log := s.log + [BlockCopied(t, s.cipher)]));
  }

  lemma RunsWorldLogin(md5: seq<byte> -> Digest, start: State, s: State, t: nat)
    requires RunsTo(md5, start, s) && t < |s.guests| && s.guests[t] == Idle
    ensures RunsTo(md5, start, s.(pending := false, log := s.log + [PendingCleared]))
  {
    hide RunsTo, Step;
    RunsOn(md5, start, s, WorldLogin(t));
    WorldLoginFromIdle(md5, s, t);
  }

  /** The machine's state after one thread processed frames, nobody else running. */
  function AfterFrames(md5: seq<byte> -> Digest, ups: nat -> bool, s: State, fs: seq<Frame>): State {
    if fs == [] then s
    else
      var n := |fs| - 1;
      var before := AfterFrames(md5, ups, s, fs[..n]);
      if fs[n].id == 0x00B then AdvancedAtomically(md5, ups(n), before)
      else if fs[n].id == 0x00A && fs[n].size >= 32 then
        before.(pending := false, log := before.log + [PendingCleared])
      else before
  }

  /** Every datagram history is a run: from any reached state with the lock free, an idle
      thread gets, through calls and steps of its own, to the key state the sequential fold
      of the frames gives. */
  lemma {:induction false} FramesAreRuns(md5: seq<byte> -> Digest, ups: nat -> bool, start: State, s: State, t: nat,
                                         fs: seq<Frame>)
    requires RunsTo(md5, start, s) && t < |s.guests| && s.guests[t] == Idle && s.lock == Free && s.enabled
    ensures var r := AfterFrames(md5, ups, s, fs);
            && RunsTo(md5, start, r)
            && View(r) == OnFrames(md5, ups, true, View(s), fs)
            && r.enabled && r.lock == Free && r.guests == s.guests && r.owner == s.owner
  {
    hide RunsTo, AdvanceKey, Derive;
    if fs != [] {
      var n := |fs| - 1;
      FramesAreRuns(md5, ups, start, s, t, fs[..n]);
      var before := AfterFrames(md5, ups, s, fs[..n]);
      if fs[n].id == 0x00B {
        RunsAdvance(md5, start, before, t, ups(n));
      } else if fs[n].id == 0x00A && fs[n].size >= 32 {
        RunsWorldLogin(md5, start, before, t);
      }
    }
  }

  /** A run with everything in it: configured, rolled over, answered, rolled over again and
      handed off. The block copied is the cipher of the key two rollovers on. */
  lemma TwoRolloversAndAHandoff(md5: seq<byte> -> Digest, guests: nat, key: Key) returns (actions: seq<Action>)
    requires guests >= 1
    ensures Run(md5, Initial(guests), actions).log ==
            [KeyConfigured(key), PendingCleared, KeyAdvanced, PendingCleared, KeyAdvanced,
             BlockCopied(0, Derive(md5, AdvanceBy(key, 2)))]
  {
    var configure := EnabledIsReachable(md5, guests, key);
    var start := Initial(guests);
    var s1 := Became(start, Configured(md5, key), KeyConfigured(key));
    assert RunsTo(md5, start, s1);
    hide RunsTo, AdvanceKey, Derive, Run, Step;
    RunsAdvance(md5, start, s1, 0, true);
    var s2 := AdvancedAtomically(md5, true, s1);
    RunsWorldLogin(md5, start, s2, 0);
    var s3 := s2.(pending := false, log := s2.log + [PendingCleared]);
    RunsAdvance(md5, start, s3, 0, true);
    var s4 := AdvancedAtomically(md5, true, s3);
    RunsApply(md5, start, s4, 0);
    assert s4.session == AdvanceKey(AdvanceKey(key));
    TwiceIsTwo(key);
    actions := RunFor(md5, start, s4.(reported := true, log := s4.log + [BlockCopied(0, s4.cipher)]));
  }

  lemma TwiceIsTwo(key: Key)
    ensures AdvanceBy(key, 2) == AdvanceKey(AdvanceKey(key))
  {
    assert AdvanceBy(key, 1) == AdvanceKey(AdvanceBy(key, 0));
  }

  lemma RunFor(md5: seq<byte> -> Digest, start: State, r: State) returns (actions: seq<Action>)
    requires RunsTo(md5, start, r)
    ensures Run(md5, start, actions) == r
  {
    actions :| Run(md5, start, actions) == r;
  }
}
