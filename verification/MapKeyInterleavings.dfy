/** The map-key entry points run concurrently: any number of guest threads advancing,
    applying and answering world logins, one owner thread configuring and clearing. Every
    lock operation, every atomic load or store and every array byte is a step of its own. */
module MapKeyInterleavings {
  import opened Bytes
  import opened LobbyPackets
  import opened MapKeys

  datatype Holder = Free | ByOwner | ByGuest(t: nat)

  datatype GuestPc =
    | Idle
    // AdvanceDirectMapSessionKey
    | AdvWait
    | AdvEnabled
    | AdvPending
    | AdvRead(copy: seq<byte>)
    | AdvDerive(next: Key)
    | AdvSession(next: Key, block: Digest, i: nat)
    | AdvCipher(next: Key, block: Digest, i: nat)
    | AdvReported
    | AdvStore
    | AdvRelease
    // RevanaApplyDirectMapCipherKey, after its unlocked test of the enabled flag
    | AppWait
    | AppEnabled
    | AppCopy(copied: seq<byte>)
    | AppRelease(complete: bool)
    | AppReport

  datatype OwnerPc =
    | OIdle
    // RevanaConfigureDirectMapSessionKey, after its local derivation
    | CfgDisable(key: Key, block: Digest)
    | CfgWait(key: Key, block: Digest)
    | CfgSession(key: Key, block: Digest, i: nat)
    | CfgCipher(key: Key, block: Digest, i: nat)
    | CfgRelease
    | CfgReported
    | CfgPending
    | CfgEnable
    // RevanaClearDirectMapCipherKey
    | ClrDisable
    | ClrWait
    | ClrSession(i: nat)
    | ClrCipher(i: nat)
    | ClrReported
    | ClrPending
    | ClrRelease

  /** What a run did to the keys, in order. */
  datatype Event =
    | KeyConfigured(key: Key)
    | KeyCleared
    | KeyAdvanced
    | PendingCleared
    | BlockCopied(t: nat, block: seq<byte>)

  datatype State = State(
    session: Key, cipher: Digest, enabled: bool, pending: bool, reported: bool,
    lock: Holder, owner: OwnerPc, guests: seq<GuestPc>, log: seq<Event>)

  datatype Action =
    | Configure(key: seq<byte>, up: bool)
    | Clear
    | OwnerStep
    | CallAdvance(t: nat)
    | CallApply(t: nat)
    | WorldLogin(t: nat)
    | GuestStep(t: nat, up: bool)

  function Initial(guests: nat): State {
    State(Zeros(20), Zeros(16), false, false, false, Free, OIdle, seq(guests, _ => Idle), [])
  }

  function At(s: State, t: nat, pc: GuestPc): State
    requires t < |s.guests|
  {
    s.(guests := s.guests[t := pc])
  }

  function Log(s: State, e: Event): State {
    s.(log := s.log + [e])
  }

  /** One action. An action that is not enabled (a busy thread called again, a lock that is
      taken) leaves the state alone. */
  function Step(md5: seq<byte> -> Digest, s: State, a: Action): State {
    match a
    case Configure(key, up) =>
      if s.owner.OIdle? && |key| == 20 && up then s.(owner := CfgDisable(key, Derive(md5, key))) else s
    case Clear =>
      if s.owner.OIdle? then s.(owner := ClrDisable) else s
    case OwnerStep => StepOwner(md5, s)
    case CallAdvance(t) =>
      if t < |s.guests| && s.guests[t].Idle? then At(s, t, AdvWait) else s
    case CallApply(t) =>
      if t < |s.guests| && s.guests[t].Idle? && s.enabled then At(s, t, AppWait) else s
    case WorldLogin(t) =>
      // The one store to the pending flag that is made without the lock.
      if t < |s.guests| && s.guests[t].Idle? then Log(s.(pending := false), PendingCleared) else s
    case GuestStep(t, up) =>
      if t < |s.guests| then StepGuest(md5, s, t, up) else s
  }

  function StepGuest(md5: seq<byte> -> Digest, s: State, t: nat, up: bool): State
    requires t < |s.guests|
  {
    match s.guests[t]
    case Idle => s
    case AdvWait => if s.lock.Free? then At(s.(lock := ByGuest(t)), t, AdvEnabled) else s
    case AdvEnabled => At(s, t, if s.enabled then AdvPending else AdvRelease)
    case AdvPending => At(s, t, if s.pending then AdvRelease else AdvRead([]))
    case AdvRead(copy) =>
      if |copy| < 20 then At(s, t, AdvRead(copy + [s.session[|copy|]]))
      else if |copy| == 20 then At(s, t, AdvDerive(AdvanceKey(copy)))
      else s
    case AdvDerive(next) => At(s, t, if up then AdvSession(next, Derive(md5, next), 0) else AdvRelease)
    case AdvSession(next, block, i) =>
      if i < 20 then At(s.(session := s.session[i := next[i]]), t, AdvSession(next, block, i + 1))
      else At(s, t, AdvCipher(next, block, 0))
    case AdvCipher(next, block, i) =>
      if i < 16 then At(s.(cipher := s.cipher[i := block[i]]), t, AdvCipher(next, block, i + 1))
      else At(s, t, AdvReported)
    case AdvReported => At(s.(reported := false), t, AdvStore)
    case AdvStore => At(Log(s.(pending := true), KeyAdvanced), t, AdvRelease)
    case AdvRelease => At(s.(lock := Free), t, Idle)
    case AppWait => if s.lock.Free? then At(s.(lock := ByGuest(t)), t, AppEnabled) else s
    case AppEnabled => At(s, t, if s.enabled then AppCopy([]) else AppRelease(false))
    case AppCopy(copied) =>
      if |copied| < 16 then At(s, t, AppCopy(copied + [s.cipher[|copied|]]))
      else At(Log(s, BlockCopied(t, copied)), t, AppRelease(true))
    case AppRelease(complete) => At(s.(lock := Free), t, if complete then AppReport else Idle)
    case AppReport => At(s.(reported := true), t, Idle)
  }

  function StepOwner(md5: seq<byte> -> Digest, s: State): State {
    match s.owner
    case OIdle => s
    case CfgDisable(key, block) => s.(enabled := false, owner := CfgWait(key, block))
    case CfgWait(key, block) =>
      if s.lock.Free? then s.(lock := ByOwner, owner := CfgSession(key, block, 0)) else s
    case CfgSession(key, block, i) =>
      if i < 20 then s.(session := s.session[i := key[i]], owner := CfgSession(key, block, i + 1))
      else s.(owner := CfgCipher(key, block, 0))
    case CfgCipher(key, block, i) =>
      if i < 16 then s.(cipher := s.cipher[i := block[i]], owner := CfgCipher(key, block, i + 1))
      else Log(s.(owner := CfgRelease), KeyConfigured(key))
    case CfgRelease => s.(lock := Free, owner := CfgReported)
    case CfgReported => s.(reported := false, owner := CfgPending)
    case CfgPending => Log(s.(pending := false, owner := CfgEnable), PendingCleared)
    case CfgEnable => s.(enabled := true, owner := OIdle)
    case ClrDisable => s.(enabled := false, owner := ClrWait)
    case ClrWait =>
      if s.lock.Free? then Log(s.(lock := ByOwner, owner := ClrSession(0)), KeyCleared) else s
    case ClrSession(i) =>
      if i < 20 then s.(session := s.session[i := 0], owner := ClrSession(i + 1)) else s.(owner := ClrCipher(0))
    case ClrCipher(i) =>
      if i < 16 then s.(cipher := s.cipher[i := 0], owner := ClrCipher(i + 1)) else s.(owner := ClrReported)
    case ClrReported => s.(reported := false, owner := ClrPending)
    case ClrPending => Log(s.(pending := false, owner := ClrRelease), PendingCleared)
    case ClrRelease => s.(lock := Free, owner := OIdle)
  }

  function Run(md5: seq<byte> -> Digest, s: State, actions: seq<Action>): State {
    if actions == [] then s
    else Step(md5, Run(md5, s, actions[..|actions| - 1]), actions[|actions| - 1])
  }

  // ------------------------------------------------------- reading a log

  function KeyAfter(key: Option<Key>, e: Event): Option<Key> {
    match e
    case KeyConfigured(configured) => Some(configured)
    case KeyCleared => None
    case KeyAdvanced => if key.Some? then Some(AdvanceKey(key.value)) else None
    case _ => key
  }

  function OpenAfter(open: bool, e: Event): bool {
    if e.KeyAdvanced? then false else if e.PendingCleared? then true else open
  }

  /** The key in force after a history: the configured one, advanced once per advance. */
  function KeyInForce(log: seq<Event>): Option<Key> {
    if log == [] then None else KeyAfter(KeyInForce(log[..|log| - 1]), log[|log| - 1])
  }

  /** Whether a rollover may happen: pending was stored false since the last one. */
  predicate RolloverOpen(log: seq<Event>) {
    log == [] || OpenAfter(RolloverOpen(log[..|log| - 1]), log[|log| - 1])
  }

  /** An advance needs an open gate and a key; a copied block is the cipher of the key in
      force at that moment. */
  predicate EventOk(md5: seq<byte> -> Digest, key: Option<Key>, open: bool, e: Event) {
    match e
    case KeyAdvanced => key.Some? && open
    case BlockCopied(_, block) => key.Some? && block == Derive(md5, key.value)
    case _ => true
  }

  predicate LogOk(md5: seq<byte> -> Digest, log: seq<Event>) {
    log == [] ||
    var before := log[..|log| - 1];
    LogOk(md5, before) && EventOk(md5, KeyInForce(before), RolloverOpen(before), log[|log| - 1])
  }

  // ------------------------------------------------------------ invariant

  predicate GuestInside(pc: GuestPc) {
    !pc.Idle? && !pc.AdvWait? && !pc.AppWait? && !pc.AppReport?
  }

  predicate OwnerInside(pc: OwnerPc) {
    pc.CfgSession? || pc.CfgCipher? || pc.CfgRelease? || pc.ClrSession? || pc.ClrCipher?
    || pc.ClrReported? || pc.ClrPending? || pc.ClrRelease?
  }

  /** Mutual exclusion: whoever is between acquire and release holds the lock. */
  predicate LockOk(s: State) {
    && (forall t :: 0 <= t < |s.guests| ==> (GuestInside(s.guests[t]) <==> s.lock == ByGuest(t)))
    && (OwnerInside(s.owner) <==> s.lock == ByOwner)
    && (s.lock.ByGuest? ==> s.lock.t < |s.guests|)
  }

  /** The arrays hold the key in force and its cipher. */
  predicate Settled(md5: seq<byte> -> Digest, s: State, key: Option<Key>) {
    key.Some? ==> s.session == key.value && s.cipher == Derive(md5, key.value)
  }

  /** Two byte strings agree on their first `n` bytes. */
  predicate Agree(a: seq<byte>, b: seq<byte>, n: nat) {
    n <= |a| && n <= |b| && forall j :: 0 <= j < n ==> a[j] == b[j]
  }

  predicate GuestHolds(md5: seq<byte> -> Digest, s: State, pc: GuestPc, key: Option<Key>, open: bool) {
    match pc
    case AdvEnabled => Settled(md5, s, key)
    case AdvPending => key.Some? && Settled(md5, s, key)
    case AdvRead(copy) =>
      key.Some? && Settled(md5, s, key) && open && Agree(copy, s.session, |copy|)
    case AdvDerive(next) => key.Some? && Settled(md5, s, key) && open && next == AdvanceKey(key.value)
    case AdvSession(next, block, i) =>
      && key.Some? && open && next == AdvanceKey(key.value) && block == Derive(md5, next)
      && Agree(s.session, next, i)
    case AdvCipher(next, block, i) =>
      && key.Some? && open && next == AdvanceKey(key.value) && block == Derive(md5, next)
      && s.session == next && Agree(s.cipher, block, i)
    case AdvReported => key.Some? && open && Settled(md5, s, Some(AdvanceKey(key.value)))
    case AdvStore => key.Some? && open && Settled(md5, s, Some(AdvanceKey(key.value)))
    case AppCopy(copied) =>
      key.Some? && Settled(md5, s, key) && Agree(copied, s.cipher, |copied|)
    case _ => Settled(md5, s, key)
  }

  predicate OwnerHolds(md5: seq<byte> -> Digest, s: State, key: Option<Key>) {
    match s.owner
    case CfgSession(next, block, i) => block == Derive(md5, next) && Agree(s.session, next, i)
    case CfgCipher(next, block, i) =>
      block == Derive(md5, next) && s.session == next && Agree(s.cipher, block, i)
    case CfgRelease => Settled(md5, s, key)
    case _ => key == None
  }

  predicate HolderOk(md5: seq<byte> -> Digest, s: State, key: Option<Key>, open: bool) {
    match s.lock
    case Free => Settled(md5, s, key)
    case ByOwner => OwnerHolds(md5, s, key)
    case ByGuest(t) => t < |s.guests| && GuestHolds(md5, s, s.guests[t], key, open)
  }

  /** Facts that do not depend on who holds the lock. */
  predicate FlagsOk(md5: seq<byte> -> Digest, s: State, key: Option<Key>, open: bool) {
    && (s.enabled ==> key.Some? && (s.owner.OIdle? || s.owner.CfgDisable? || s.owner.ClrDisable?))
    && (s.owner.CfgRelease? || s.owner.CfgReported? || s.owner.CfgPending? || s.owner.CfgEnable? ==> key.Some?)
    && (s.owner.CfgDisable? || s.owner.CfgWait? ==> s.owner.block == Derive(md5, s.owner.key))
    && (open || s.pending)
  }

  predicate Core(md5: seq<byte> -> Digest, s: State, key: Option<Key>, open: bool) {
    LockOk(s) && FlagsOk(md5, s, key, open) && HolderOk(md5, s, key, open)
  }

  predicate Inv(md5: seq<byte> -> Digest, s: State) {
    LogOk(md5, s.log) && Core(md5, s, KeyInForce(s.log), RolloverOpen(s.log))
  }

  /** The key and the gate after a step that may have logged one event. */
  function KeyNow(s: State, r: State, key: Option<Key>): Option<Key> {
    if |r.log| <= |s.log| then key else KeyAfter(key, r.log[|s.log|])
  }

  function OpenNow(s: State, r: State, open: bool): bool {
    if |r.log| <= |s.log| then open else OpenAfter(open, r.log[|s.log|])
  }

  /** A step logs at most one event, and an allowed one. */
  predicate LogKept(md5: seq<byte> -> Digest, s: State, r: State, key: Option<Key>, open: bool) {
    r.log == s.log
    || (|r.log| == |s.log| + 1 && r.log[..|s.log|] == s.log && EventOk(md5, key, open, r.log[|s.log|]))
  }

  predicate HolderKept(md5: seq<byte> -> Digest, s: State, r: State, key: Option<Key>, open: bool) {
    HolderOk(md5, r, KeyNow(s, r, key), OpenNow(s, r, open))
  }

  predicate Kept(md5: seq<byte> -> Digest, s: State, r: State, key: Option<Key>, open: bool) {
    LogKept(md5, s, r, key, open) && Core(md5, r, KeyNow(s, r, key), OpenNow(s, r, open))
  }

  lemma GuestKeepsLog(md5: seq<byte> -> Digest, s: State, t: nat, up: bool, key: Option<Key>, open: bool)
    requires t < |s.guests| && (GuestInside(s.guests[t]) ==> GuestHolds(md5, s, s.guests[t], key, open))
    ensures var r := StepGuest(md5, s, t, up); LogKept(md5, s, r, key, open)
  {
  }

  predicate GuestMoves(pc: GuestPc) {
    pc.Idle? || pc.AdvWait? || pc.AppWait? || pc.AppReport? || pc.AdvRelease? || pc.AppRelease?
  }

  lemma GuestAcquiresOrReleases(md5: seq<byte> -> Digest, s: State, t: nat, up: bool)
    requires LockOk(s) && t < |s.guests| && GuestMoves(s.guests[t])
    ensures LockOk(StepGuest(md5, s, t, up))
  {
  }

  predicate GuestStores(pc: GuestPc) {
    pc.AdvSession? || pc.AdvCipher? || pc.AdvReported? || pc.AdvStore?
  }

  /** The step changes neither the lock, nor the owner, nor any other thread. */
  predicate OnlyThread(s: State, r: State, t: nat) {
    && r.lock == s.lock && r.owner == s.owner
    && |r.guests| == |s.guests|
    && forall u :: 0 <= u < |s.guests| && u != t ==> r.guests[u] == s.guests[u]
  }

  lemma GuestStoresInside(md5: seq<byte> -> Digest, s: State, t: nat, up: bool)
    requires t < |s.guests| && GuestStores(s.guests[t])
    ensures var r := StepGuest(md5, s, t, up); OnlyThread(s, r, t) && GuestInside(r.guests[t])
  {
  }

  lemma GuestLoadsInside(md5: seq<byte> -> Digest, s: State, t: nat, up: bool)
    requires t < |s.guests| && !GuestMoves(s.guests[t]) && !GuestStores(s.guests[t])
    ensures var r := StepGuest(md5, s, t, up); OnlyThread(s, r, t) && GuestInside(r.guests[t])
  {
  }

  lemma GuestKeepsLock(md5: seq<byte> -> Digest, s: State, t: nat, up: bool)
    requires LockOk(s) && t < |s.guests|
    ensures LockOk(StepGuest(md5, s, t, up))
  {
    if GuestMoves(s.guests[t]) {
      GuestAcquiresOrReleases(md5, s, t, up);
    } else if GuestStores(s.guests[t]) {
      GuestStoresInside(md5, s, t, up);
    } else {
      GuestLoadsInside(md5, s, t, up);
    }
  }

  lemma GuestKeepsFlags(md5: seq<byte> -> Digest, s: State, t: nat, up: bool, key: Option<Key>, open: bool)
    requires FlagsOk(md5, s, key, open) && t < |s.guests| && (s.guests[t].AdvStore? ==> key.Some?)
    ensures var r := StepGuest(md5, s, t, up); FlagsOk(md5, r, KeyNow(s, r, key), OpenNow(s, r, open))
  {
    if GuestStores(s.guests[t]) {
      if !s.guests[t].AdvStore? {
        StoringLeavesFlags(md5, s, t, up);
      }
    } else if GuestMoves(s.guests[t]) {
      MovingLeavesFlags(md5, s, t, up);
    } else {
      LoadingLeavesFlags(md5, s, t, up);
    }
  }

  lemma StoringLeavesFlags(md5: seq<byte> -> Digest, s: State, t: nat, up: bool)
    requires t < |s.guests| && GuestStores(s.guests[t]) && !s.guests[t].AdvStore?
    ensures var r := StepGuest(md5, s, t, up);
            r.enabled == s.enabled && r.pending == s.pending && r.owner == s.owner && r.log == s.log
  {
  }

  lemma MovingLeavesFlags(md5: seq<byte> -> Digest, s: State, t: nat, up: bool)
    requires t < |s.guests| && GuestMoves(s.guests[t])
    ensures var r := StepGuest(md5, s, t, up);
            r.enabled == s.enabled && r.pending == s.pending && r.owner == s.owner && r.log == s.log
  {
  }

  lemma LoadingLeavesFlags(md5: seq<byte> -> Digest, s: State, t: nat, up: bool)
    requires t < |s.guests| && !GuestStores(s.guests[t]) && !GuestMoves(s.guests[t])
    ensures var r := StepGuest(md5, s, t, up);
            && r.enabled == s.enabled && r.pending == s.pending && r.owner == s.owner
            && (r.log == s.log || (r.log[..|s.log|] == s.log && |r.log| == |s.log| + 1 && r.log[|s.log|].BlockCopied?))
  {
  }

  lemma GuestEntersOrLeaves(md5: seq<byte> -> Digest, s: State, t: nat, up: bool, key: Option<Key>, open: bool)
    requires Core(md5, s, key, open) && t < |s.guests|
    requires s.guests[t].Idle? || s.guests[t].AdvWait? || s.guests[t].AppWait? || s.guests[t].AppReport?
      || s.guests[t].AdvRelease? || s.guests[t].AppRelease?
    ensures var r := StepGuest(md5, s, t, up); HolderKept(md5, s, r, key, open)
  {
  }

  lemma GuestTests(md5: seq<byte> -> Digest, s: State, t: nat, up: bool, key: Option<Key>, open: bool)
    requires Core(md5, s, key, open) && t < |s.guests|
    requires s.guests[t].AdvEnabled? || s.guests[t].AdvPending? || s.guests[t].AppEnabled? || s.guests[t].AdvDerive?
    ensures var r := StepGuest(md5, s, t, up); HolderKept(md5, s, r, key, open)
  {
  }

  lemma GuestReadsByte(md5: seq<byte> -> Digest, s: State, t: nat, up: bool, key: Option<Key>, open: bool)
    requires Core(md5, s, key, open) && t < |s.guests|
    requires s.guests[t].AdvRead? && |s.guests[t].copy| < 20
    ensures var r := StepGuest(md5, s, t, up); HolderKept(md5, s, r, key, open)
  {
  }

  lemma GuestComputesKey(md5: seq<byte> -> Digest, s: State, t: nat, up: bool, key: Option<Key>, open: bool)
    requires Core(md5, s, key, open) && t < |s.guests|
    requires s.guests[t].AdvRead? && |s.guests[t].copy| >= 20
    ensures var r := StepGuest(md5, s, t, up); HolderKept(md5, s, r, key, open)
  {
  }

  lemma GuestCopiesByte(md5: seq<byte> -> Digest, s: State, t: nat, up: bool, key: Option<Key>, open: bool)
    requires Core(md5, s, key, open) && t < |s.guests|
    requires s.guests[t].AppCopy? && |s.guests[t].copied| < 16
    ensures var r := StepGuest(md5, s, t, up); HolderKept(md5, s, r, key, open)
  {
  }

  lemma GuestFinishesCopy(md5: seq<byte> -> Digest, s: State, t: nat, up: bool, key: Option<Key>, open: bool)
    requires Core(md5, s, key, open) && t < |s.guests|
    requires s.guests[t].AppCopy? && |s.guests[t].copied| >= 16
    ensures var r := StepGuest(md5, s, t, up); HolderKept(md5, s, r, key, open)
  {
  }

  lemma GuestWritesSessionByte(md5: seq<byte> -> Digest, s: State, t: nat, up: bool, key: Option<Key>, open: bool)
    requires Core(md5, s, key, open) && t < |s.guests|
    requires s.guests[t].AdvSession? && s.guests[t].i < 20
    ensures var r := StepGuest(md5, s, t, up); HolderKept(md5, s, r, key, open)
  {
  }

  lemma GuestWritesCipherByte(md5: seq<byte> -> Digest, s: State, t: nat, up: bool, key: Option<Key>, open: bool)
    requires Core(md5, s, key, open) && t < |s.guests|
    requires s.guests[t].AdvCipher? && s.guests[t].i < 16
    ensures var r := StepGuest(md5, s, t, up); HolderKept(md5, s, r, key, open)
  {
  }

  lemma GuestFinishesArray(md5: seq<byte> -> Digest, s: State, t: nat, up: bool, key: Option<Key>, open: bool)
    requires Core(md5, s, key, open) && t < |s.guests|
    requires (s.guests[t].AdvSession? && s.guests[t].i >= 20) || (s.guests[t].AdvCipher? && s.guests[t].i >= 16)
    ensures var r := StepGuest(md5, s, t, up); HolderKept(md5, s, r, key, open)
  {
  }

  lemma GuestPublishes(md5: seq<byte> -> Digest, s: State, t: nat, up: bool, key: Option<Key>, open: bool)
    requires Core(md5, s, key, open) && t < |s.guests|
    requires s.guests[t].AdvReported? || s.guests[t].AdvStore?
    ensures var r := StepGuest(md5, s, t, up); HolderKept(md5, s, r, key, open)
  {
  }

  lemma OwnerKeepsLog(md5: seq<byte> -> Digest, s: State, key: Option<Key>, open: bool)
    requires FlagsOk(md5, s, key, open)
    ensures var r := StepOwner(md5, s); LogKept(md5, s, r, key, open)
  {
  }

  lemma OwnerKeepsLock(md5: seq<byte> -> Digest, s: State)
    requires LockOk(s)
    ensures var r := StepOwner(md5, s); LockOk(r)
  {
  }

  lemma OwnerKeepsFlags(md5: seq<byte> -> Digest, s: State, key: Option<Key>, open: bool)
    requires FlagsOk(md5, s, key, open)
    ensures var r := StepOwner(md5, s); FlagsOk(md5, r, KeyNow(s, r, key), OpenNow(s, r, open))
  {
    if OwnerConfigures(s.owner) {
      ConfigureKeepsFlags(md5, s, key, open);
    } else {
      ClearKeepsFlags(md5, s, key, open);
    }
  }

  predicate OwnerConfigures(pc: OwnerPc) {
    pc.CfgDisable? || pc.CfgWait? || pc.CfgSession? || pc.CfgCipher? || pc.CfgRelease? || pc.CfgReported?
    || pc.CfgPending? || pc.CfgEnable?
  }

  lemma ConfigureKeepsFlags(md5: seq<byte> -> Digest, s: State, key: Option<Key>, open: bool)
    requires FlagsOk(md5, s, key, open) && OwnerConfigures(s.owner)
    ensures var r := StepOwner(md5, s); FlagsOk(md5, r, KeyNow(s, r, key), OpenNow(s, r, open))
  {
  }

  lemma ClearKeepsFlags(md5: seq<byte> -> Digest, s: State, key: Option<Key>, open: bool)
    requires FlagsOk(md5, s, key, open) && !OwnerConfigures(s.owner)
    ensures var r := StepOwner(md5, s); FlagsOk(md5, r, KeyNow(s, r, key), OpenNow(s, r, open))
  {
  }

  lemma OwnerWritesSession(md5: seq<byte> -> Digest, s: State, key: Option<Key>, open: bool)
    requires Core(md5, s, key, open)
    requires s.owner.CfgSession?
    ensures var r := StepOwner(md5, s); HolderKept(md5, s, r, key, open)
  {
  }

  lemma OwnerWritesCipher(md5: seq<byte> -> Digest, s: State, key: Option<Key>, open: bool)
    requires Core(md5, s, key, open)
    requires s.owner.CfgCipher?
    ensures var r := StepOwner(md5, s); HolderKept(md5, s, r, key, open)
  {
  }

  lemma OwnerTakesLock(md5: seq<byte> -> Digest, s: State, key: Option<Key>, open: bool)
    requires Core(md5, s, key, open)
    requires s.owner.CfgWait? || s.owner.ClrWait?
    ensures var r := StepOwner(md5, s); HolderKept(md5, s, r, key, open)
  {
  }

  lemma OwnerStaysInside(md5: seq<byte> -> Digest, s: State, key: Option<Key>, open: bool)
    requires Core(md5, s, key, open)
    requires OwnerInside(s.owner) && !s.owner.CfgSession? && !s.owner.CfgCipher?
    ensures var r := StepOwner(md5, s); HolderKept(md5, s, r, key, open)
  {
  }

  lemma OwnerStaysOutside(md5: seq<byte> -> Digest, s: State, key: Option<Key>, open: bool)
    requires Core(md5, s, key, open)
    requires !OwnerInside(s.owner) && !s.owner.CfgWait? && !s.owner.ClrWait?
    ensures var r := StepOwner(md5, s); HolderKept(md5, s, r, key, open)
  {
    var r := StepOwner(md5, s);
    HolderUndisturbed(md5, s, r, key, open, OpenNow(s, r, open));
  }

  lemma GuestStepKeepsCore(md5: seq<byte> -> Digest, s: State, t: nat, up: bool, key: Option<Key>, open: bool)
    requires Core(md5, s, key, open) && t < |s.guests|
    ensures Kept(md5, s, StepGuest(md5, s, t, up), key, open)
  {
    GuestKeepsLog(md5, s, t, up, key, open);
    GuestKeepsLock(md5, s, t, up);
    GuestKeepsFlags(md5, s, t, up, key, open);
    match s.guests[t]
    case AdvRead(copy) =>
      if |copy| < 20 {
        GuestReadsByte(md5, s, t, up, key, open);
      } else {
        GuestComputesKey(md5, s, t, up, key, open);
      }
    case AppCopy(copied) =>
      if |copied| < 16 {
        GuestCopiesByte(md5, s, t, up, key, open);
      } else {
        GuestFinishesCopy(md5, s, t, up, key, open);
      }
    case AdvSession(_, _, i) =>
      if i < 20 {
        GuestWritesSessionByte(md5, s, t, up, key, open);
      } else {
        GuestFinishesArray(md5, s, t, up, key, open);
      }
    case AdvCipher(_, _, i) =>
      if i < 16 {
        GuestWritesCipherByte(md5, s, t, up, key, open);
      } else {
        GuestFinishesArray(md5, s, t, up, key, open);
      }
    case AdvReported => GuestPublishes(md5, s, t, up, key, open);
    case AdvStore => GuestPublishes(md5, s, t, up, key, open);
    case AdvEnabled => GuestTests(md5, s, t, up, key, open);
    case AdvPending => GuestTests(md5, s, t, up, key, open);
    case AdvDerive(_) => GuestTests(md5, s, t, up, key, open);
    case AppEnabled => GuestTests(md5, s, t, up, key, open);
    case _ => GuestEntersOrLeaves(md5, s, t, up, key, open);
  }

  lemma OwnerStepKeepsCore(md5: seq<byte> -> Digest, s: State, key: Option<Key>, open: bool)
    requires Core(md5, s, key, open)
    ensures Kept(md5, s, StepOwner(md5, s), key, open)
  {
    OwnerKeepsLog(md5, s, key, open);
    OwnerKeepsLock(md5, s);
    OwnerKeepsFlags(md5, s, key, open);
    match s.owner
    case CfgSession(_, _, _) => OwnerWritesSession(md5, s, key, open);
    case CfgCipher(_, _, _) => OwnerWritesCipher(md5, s, key, open);
    case CfgWait(_, _) => OwnerTakesLock(md5, s, key, open);
    case ClrWait => OwnerTakesLock(md5, s, key, open);
    case _ =>
      if OwnerInside(s.owner) {
        OwnerStaysInside(md5, s, key, open);
      } else {
        OwnerStaysOutside(md5, s, key, open);
      }
  }

  /** A call only moves an idle thread to its first step; the world-login store opens the
      gate. Neither disturbs whoever holds the lock. */
  lemma CallKeepsCore(md5: seq<byte> -> Digest, s: State, a: Action, key: Option<Key>, open: bool)
    requires Core(md5, s, key, open) && !a.OwnerStep? && !a.GuestStep?
    ensures Kept(md5, s, Step(md5, s, a), key, open)
  {
    CallKeepsLock(md5, s, a);
    var r := Step(md5, s, a);
    HolderUndisturbed(md5, s, r, key, open, OpenNow(s, r, open));
  }

  lemma CallKeepsLock(md5: seq<byte> -> Digest, s: State, a: Action)
    requires LockOk(s) && !a.OwnerStep? && !a.GuestStep?
    ensures var r := Step(md5, s, a);
            && LockOk(r) && r.lock == s.lock && r.session == s.session && r.cipher == s.cipher
            && (s.lock.ByOwner? ==> r.owner == s.owner)
            && (s.lock.ByGuest? ==> r.lock.t < |r.guests| && r.guests[s.lock.t] == s.guests[s.lock.t])
  {
  }

  lemma HolderUndisturbed(md5: seq<byte> -> Digest, s: State, r: State, key: Option<Key>, open: bool, now: bool)
    requires LockOk(s) && HolderOk(md5, s, key, open) && (open ==> now)
    requires r.lock == s.lock && r.session == s.session && r.cipher == s.cipher
    requires s.lock.ByOwner? ==> r.owner == s.owner
    requires s.lock.ByGuest? ==> s.lock.t < |r.guests| && r.guests[s.lock.t] == s.guests[s.lock.t]
    ensures HolderOk(md5, r, key, now)
  {
  }

  lemma StepKeepsCore(md5: seq<byte> -> Digest, s: State, a: Action, key: Option<Key>, open: bool)
    requires Core(md5, s, key, open)
    ensures Kept(md5, s, Step(md5, s, a), key, open)
  {
    match a
    case OwnerStep => OwnerStepKeepsCore(md5, s, key, open);
    case GuestStep(t, up) =>
      if t < |s.guests| {
        GuestStepKeepsCore(md5, s, t, up, key, open);
      }
    case _ => CallKeepsCore(md5, s, a, key, open);
  }

  lemma StepKeepsInv(md5: seq<byte> -> Digest, s: State, a: Action)
    requires Inv(md5, s)
    ensures Inv(md5, Step(md5, s, a))
  {
    StepKeepsCore(md5, s, a, KeyInForce(s.log), RolloverOpen(s.log));
    KeptLogIsOk(md5, s, Step(md5, s, a));
  }

  lemma KeptLogIsOk(md5: seq<byte> -> Digest, s: State, r: State)
    requires LogOk(md5, s.log) && LogKept(md5, s, r, KeyInForce(s.log), RolloverOpen(s.log))
    ensures LogOk(md5, r.log)
    ensures KeyInForce(r.log) == KeyNow(s, r, KeyInForce(s.log))
    ensures RolloverOpen(r.log) == OpenNow(s, r, RolloverOpen(s.log))
  {
  }

  lemma {:induction false} RunKeepsInv(md5: seq<byte> -> Digest, s: State, actions: seq<Action>)
    requires Inv(md5, s)
    ensures Inv(md5, Run(md5, s, actions))
  {
    if actions != [] {
      var n := |actions| - 1;
      RunKeepsInv(md5, s, actions[..n]);
      StepKeepsInv(md5, Run(md5, s, actions[..n]), actions[n]);
    }
  }

  /** Every state any run can reach from start-up, with any number of guest threads. */
  lemma EveryRunKeepsInv(md5: seq<byte> -> Digest, guests: nat, actions: seq<Action>)
    ensures Inv(md5, Run(md5, Initial(guests), actions))
  {
    RunKeepsInv(md5, Initial(guests), actions);
  }

  // ------------------------------------------------------------- results

  /** The key of the last configuration that was not cleared since. */
  function ConfiguredKey(log: seq<Event>): Option<Key> {
    if log == [] then None
    else
      match log[|log| - 1]
      case KeyConfigured(key) => Some(key)
      case KeyCleared => None
      case _ => ConfiguredKey(log[..|log| - 1])
  }

  /** Advances completed since that configuration. */
  function AdvancesSince(log: seq<Event>): nat {
    if log == [] then 0
    else
      match log[|log| - 1]
      case KeyConfigured(_) => 0
      case KeyCleared => 0
      case KeyAdvanced => AdvancesSince(log[..|log| - 1]) + 1
      case _ => AdvancesSince(log[..|log| - 1])
  }

  lemma {:induction false} KeyInForceClosedForm(log: seq<Event>)
    ensures KeyInForce(log) ==
            if ConfiguredKey(log).None? then None
            else Some(AdvanceBy(ConfiguredKey(log).value, AdvancesSince(log)))
  {
    if log != [] {
      KeyInForceClosedForm(log[..|log| - 1]);
    }
  }

  lemma {:induction false} LogOkAt(md5: seq<byte> -> Digest, log: seq<Event>, i: nat)
    requires LogOk(md5, log) && i < |log|
    ensures LogOk(md5, log[..i]) && EventOk(md5, KeyInForce(log[..i]), RolloverOpen(log[..i]), log[i])
  {
    if i < |log| - 1 {
      LogOkAt(md5, log[..|log| - 1], i);
      assert log[..|log| - 1][..i] == log[..i];
    }
  }

  /** No torn and no stale key: in every run, each block a handoff copied is the cipher of
      the configured key advanced by exactly the advances completed since. */
  lemma CopiedBlocksAreCurrent(md5: seq<byte> -> Digest, guests: nat, actions: seq<Action>, i: nat)
    requires var log := Run(md5, Initial(guests), actions).log; i < |log| && log[i].BlockCopied?
    ensures var log := Run(md5, Initial(guests), actions).log;
            && ConfiguredKey(log[..i]).Some?
            && log[i].block == Derive(md5, AdvanceBy(ConfiguredKey(log[..i]).value, AdvancesSince(log[..i])))
  {
    var log := Run(md5, Initial(guests), actions).log;
    EveryRunKeepsInv(md5, guests, actions);
    LogOkAt(md5, log, i);
    KeyInForceClosedForm(log[..i]);
  }

  lemma {:induction false} OpenMeansStoredSince(log: seq<Event>, i: nat)
    requires i < |log| && log[i].KeyAdvanced? && RolloverOpen(log)
    ensures exists k :: i < k < |log| && log[k].PendingCleared?
  {
    var n := |log| - 1;
    if i < n && !log[n].PendingCleared? {
      OpenMeansStoredSince(log[..n], i);
      var k :| i < k < n && log[..n][k].PendingCleared?;
      assert log[k].PendingCleared?;
    }
  }

  /** In every run, even with the unlocked store, two advances are separated by a store of
      pending = false: a burst of handoffs advances the key at most once. */
  lemma AdvancesAreSeparated(md5: seq<byte> -> Digest, guests: nat, actions: seq<Action>, i: nat, j: nat)
    requires var log := Run(md5, Initial(guests), actions).log;
             i < j < |log| && log[i].KeyAdvanced? && log[j].KeyAdvanced?
    ensures var log := Run(md5, Initial(guests), actions).log;
            exists k :: i < k < j && log[k].PendingCleared?
  {
    var log := Run(md5, Initial(guests), actions).log;
    EveryRunKeepsInv(md5, guests, actions);
    LogOkAt(md5, log, j);
    OpenMeansStoredSince(log[..j], i);
    var k :| i < k < j && log[..j][k].PendingCleared?;
    assert log[k].PendingCleared?;
  }

  /** Whenever the lock is free and the key enabled, the two arrays belong together and are
      the configured key, advanced. */
  lemma FreeAndEnabledMeansCurrent(md5: seq<byte> -> Digest, guests: nat, actions: seq<Action>)
    ensures var s := Run(md5, Initial(guests), actions);
            s.lock.Free? && s.enabled ==>
              && s.cipher == Derive(md5, s.session)
              && ConfiguredKey(s.log).Some?
              && s.session == AdvanceBy(ConfiguredKey(s.log).value, AdvancesSince(s.log))
  {
    EveryRunKeepsInv(md5, guests, actions);
    KeyInForceClosedForm(Run(md5, Initial(guests), actions).log);
  }

  /** Thread `t` takes no step in these actions; everybody else may do anything. */
  predicate WithoutSteps(t: nat, actions: seq<Action>) {
    forall i :: 0 <= i < |actions| ==> !(actions[i].GuestStep? && actions[i].t == t)
  }

  predicate OnlyPendingCleared(log: seq<Event>, from: nat) {
    from <= |log| && forall i :: from <= i < |log| ==> log[i].PendingCleared?
  }

  /** What the others leave alone while a guest thread is between acquire and release. */
  predicate KeyKept(s: State, r: State, t: nat) {
    && |r.guests| == |s.guests| && t < |s.guests| && r.guests[t] == s.guests[t]
    && r.lock == s.lock && r.session == s.session && r.cipher == s.cipher
    && (r.pending ==> s.pending)
  }

  lemma OthersStepAround(md5: seq<byte> -> Digest, s: State, t: nat, a: Action)
    requires LockOk(s) && t < |s.guests| && GuestInside(s.guests[t])
    requires !(a.GuestStep? && a.t == t)
    ensures var r := Step(md5, s, a);
            KeyKept(s, r, t) && (r.log == s.log || r.log == s.log + [PendingCleared])
  {
    match a
    case OwnerStep => OwnerStepsAround(md5, s, t);
    case GuestStep(u, up) =>
      if u < |s.guests| {
        GuestStepsAround(md5, s, t, u, up);
      }
    case _ =>
  }

  lemma OwnerStepsAround(md5: seq<byte> -> Digest, s: State, t: nat)
    requires LockOk(s) && t < |s.guests| && GuestInside(s.guests[t])
    ensures var r := StepOwner(md5, s);
            KeyKept(s, r, t) && (r.log == s.log || r.log == s.log + [PendingCleared])
  {
    assert !OwnerInside(s.owner) && !s.lock.Free?;
  }

  lemma GuestStepsAround(md5: seq<byte> -> Digest, s: State, t: nat, u: nat, up: bool)
    requires LockOk(s) && t < |s.guests| && GuestInside(s.guests[t]) && u < |s.guests| && u != t
    ensures var r := StepGuest(md5, s, u, up);
            KeyKept(s, r, t) && r.log == s.log
  {
    assert !GuestInside(s.guests[u]) && !s.lock.Free?;
  }

  /** While a guest thread holds the lock, nobody else touches a key byte, sets pending,
      takes the lock or advances, configures, clears or copies. */
  lemma {:induction false} OthersRunAround(md5: seq<byte> -> Digest, s: State, t: nat, actions: seq<Action>)
    requires Inv(md5, s) && t < |s.guests| && GuestInside(s.guests[t]) && WithoutSteps(t, actions)
    ensures var r := Run(md5, s, actions);
            KeyKept(s, r, t) && OnlyPendingCleared(r.log, |s.log|) && r.log[..|s.log|] == s.log
  {
    hide Step, Inv, LockOk, GuestInside;
    if actions != [] {
      var n := |actions| - 1;
      OthersRunAround(md5, s, t, actions[..n]);
      var before := Run(md5, s, actions[..n]);
      RunKeepsInv(md5, s, actions[..n]);
      LockHoldsIn(md5, before);
      OthersStepAround(md5, before, t, actions[n]);
    }
  }

  lemma LockHoldsIn(md5: seq<byte> -> Digest, s: State)
    requires Inv(md5, s)
    ensures LockOk(s)
  {
  }

  /** A failed derivation, over whole runs: whatever the other threads do before the
      failing thread gives the lock back, every key byte is as it was, pending was not set
      and no advance, configuration, clear or copy happened. */
  lemma FailedDerivationChangesNothing(md5: seq<byte> -> Digest, s: State, t: nat, others: seq<Action>, up: bool)
    requires Inv(md5, s) && t < |s.guests| && s.guests[t].AdvDerive? && WithoutSteps(t, others)
    ensures var failed := Step(md5, s, GuestStep(t, false));
            var r := Step(md5, Run(md5, failed, others), GuestStep(t, up));
            && r.lock.Free? && t < |r.guests| && r.guests[t].Idle?
            && r.session == s.session && r.cipher == s.cipher && (r.pending ==> s.pending)
            && OnlyPendingCleared(r.log, |s.log|) && r.log[..|s.log|] == s.log
  {
    var failed := Step(md5, s, GuestStep(t, false));
    assert failed == At(s, t, AdvRelease);
    StepKeepsInv(md5, s, GuestStep(t, false));
    OthersRunAround(md5, failed, t, others);
    ReleaseLeavesAll(md5, Run(md5, failed, others), t, up);
  }

  lemma ReleaseLeavesAll(md5: seq<byte> -> Digest, s: State, t: nat, up: bool)
    requires t < |s.guests| && s.guests[t].AdvRelease?
    ensures Step(md5, s, GuestStep(t, up)) == s.(lock := Free, guests := s.guests[t := Idle])
  {
  }
}
