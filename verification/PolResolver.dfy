/** The host's resolver hooks over the guest's service table: three slots are replaced by
    thunks, the guest's own targets kept as originals for every request that is not the
    retail lobby's. */
module PolResolver {
  import opened Bytes

  /** "ffxi00.pol.com", without its terminator. */
  const RETAIL_HOSTNAME: seq<byte> :=
    [0x66, 0x66, 0x78, 0x69, 0x30, 0x30, 0x2E, 0x70, 0x6F, 0x6C, 0x2E, 0x63, 0x6F, 0x6D]
  const RESOLVER_HANDLE: uint32 := 0x50584901
  const UNAVAILABLE := -2071
  const INVALID_ARGUMENT := -22

  datatype Kind = Begin | Poll | Cancel

  datatype Slots<T> = Slots(begin: T, poll: T, cancel: T) {
    function At(k: Kind): T {
      match k
      case Begin => begin
      case Poll => poll
      case Cancel => cancel
    }
  }

  /** What an address dispatches to. */
  datatype Function = Guest(name: nat) | Hook(kind: Kind)

  /** The resolver's globals, the guest's table, and the dispatcher's functions. */
  datatype World = World(enabled: bool, ipv4: uint32, thunks: Slots<uint32>, originals: Slots<uint32>,
                         table: Slots<uint32>, functions: map<uint32, Function>)

  /** A guest call: its two argument registers, guest memory, and whether the guest's
      network state can be brought up. */
  datatype Call = Call(r3: uint32, r4: uint32, memory: seq<byte>, network: bool)

  // ------------------------------------------------------------------- calls

  predicate HoldsString(memory: seq<byte>, address: nat, expected: seq<byte>) {
    address + |expected| < |memory|
    && memory[address..address + |expected|] == expected
    && memory[address + |expected|] == 0
  }

  /** Does the hook of this kind answer the call itself? */
  predicate Mine(k: Kind, call: Call) {
    match k
    case Begin => call.r3 != 0 && HoldsString(call.memory, call.r3, RETAIL_HOSTNAME)
    case _ => call.r3 == RESOLVER_HANDLE
  }

  datatype Step = Done(r3: int) | Forwarded(target: uint32)

  function HookStep(originals: Slots<uint32>, k: Kind, call: Call): Step {
    if !Mine(k, call) then Forwarded(originals.At(k))
    else
      match k
      case Begin => Done(if call.network then RESOLVER_HANDLE else UNAVAILABLE)
      case Poll => Done(if call.r4 == 0 then INVALID_ARGUMENT else 1)
      case Cancel => Done(0)
  }

  /** The retail hostname, as text. */
  lemma RetailHostname()
    ensures |RETAIL_HOSTNAME| == |"ffxi00.pol.com"|
    ensures forall i :: 0 <= i < |RETAIL_HOSTNAME| ==> RETAIL_HOSTNAME[i] == "ffxi00.pol.com"[i] as int
  {
  }

  /** What each hook answers itself, and for which calls; all others are forwarded to the
      original of their kind. */
  lemma HookAnswers(originals: Slots<uint32>, call: Call)
    ensures HookStep(originals, Begin, call) ==
            if call.r3 != 0 && HoldsString(call.memory, call.r3, RETAIL_HOSTNAME)
            then Done(if call.network then 0x50584901 else -2071) else Forwarded(originals.begin)
    ensures HookStep(originals, Poll, call) ==
            if call.r3 == 0x50584901 then Done(if call.r4 == 0 then -22 else 1) else Forwarded(originals.poll)
    ensures HookStep(originals, Cancel, call) ==
            if call.r3 == 0x50584901 then Done(0) else Forwarded(originals.cancel)
  {
  }

  /** The handle begin answers is the one poll and cancel take for theirs: a retail lookup
      is carried out without the guest from beginning to end. */
  lemma RetailLookup(originals: Slots<uint32>, begin: Call, later: Call)
    requires begin.r3 != 0 && begin.network && HoldsString(begin.memory, begin.r3, RETAIL_HOSTNAME)
    requires HookStep(originals, Begin, begin) == Done(later.r3) && later.r4 != 0
    ensures HookStep(originals, Poll, later) == Done(1) && HookStep(originals, Cancel, later) == Done(0)
  {
  }

  datatype Answer = Synthetic(r3: int) | Reached(name: nat) | Missing

  /** Where a call to `target` ends; None when more than `hops` hooks forward it. */
  function Resolve(s: World, target: uint32, call: Call, hops: nat): Option<Answer>
    decreases hops
  {
    if target !in s.functions then Some(Missing)
    else
      match s.functions[target]
      case Guest(name) => Some(Reached(name))
      case Hook(k) =>
        match HookStep(s.originals, k, call)
        case Done(r3) => Some(Synthetic(r3))
        case Forwarded(next) => if hops == 0 then None else Resolve(s, next, call, hops - 1)
  }

  // ----------------------------------------------------------------- install

  predicate Complete(slots: Slots<uint32>) {
    slots.begin != 0 && slots.poll != 0 && slots.cancel != 0
  }

  predicate AlreadyInstalled(s: World) {
    s.thunks.begin != 0 && s.table.begin == s.thunks.begin
  }

  function Allocated(functions: map<uint32, Function>, k: Kind, thunk: uint32): map<uint32, Function> {
    if thunk == 0 then functions else functions[thunk := Hook(k)]
  }

  function AllAllocated(functions: map<uint32, Function>, thunks: Slots<uint32>): map<uint32, Function> {
    Allocated(Allocated(Allocated(functions, Begin, thunks.begin), Poll, thunks.poll), Cancel, thunks.cancel)
  }

  /** `thunks` are the dispatcher's answers should the install allocate; 0 is a failure. */
  function Installed(s: World, kernel: bool, thunks: Slots<uint32>): World {
    if !s.enabled || !kernel || AlreadyInstalled(s) || !Complete(s.table) then s
    else
      var w := s.(functions := AllAllocated(s.functions, thunks));
      if !Complete(thunks) then w else w.(originals := s.table, thunks := thunks, table := thunks)
  }

  predicate Installs(s: World, kernel: bool, thunks: Slots<uint32>) {
    s.enabled && kernel && (AlreadyInstalled(s) || (Complete(s.table) && Complete(thunks)))
  }

  /** What the dispatcher owes its caller: new addresses, no two alike. */
  predicate Fresh(functions: map<uint32, Function>, thunks: Slots<uint32>) {
    && (forall k: Kind :: thunks.At(k) != 0 ==> thunks.At(k) !in functions)
    && (thunks.begin != 0 ==> thunks.begin != thunks.poll && thunks.begin != thunks.cancel)
    && (thunks.poll != 0 ==> thunks.poll != thunks.cancel)
  }

  // -------------------------------------------------------------------- runs

  /** The guest rewrites all three slots together, with its own targets or with zeros. */
  datatype Action = Enable(ipv4: uint32) | Install(kernel: bool, thunks: Slots<uint32>) | Rewrite(targets: Slots<uint32>)

  predicate GuestTarget(functions: map<uint32, Function>, target: uint32) {
    target == 0 || (target in functions && functions[target].Guest?)
  }

  predicate GuestTargets(functions: map<uint32, Function>, targets: Slots<uint32>) {
    GuestTarget(functions, targets.begin) && GuestTarget(functions, targets.poll) && GuestTarget(functions, targets.cancel)
  }

  predicate Legal(s: World, a: Action) {
    match a
    case Enable(_) => true
    case Install(_, thunks) => Fresh(s.functions, thunks)
    case Rewrite(targets) => GuestTargets(s.functions, targets)
  }

  function Next(s: World, a: Action): World {
    match a
    case Enable(ipv4) => s.(enabled := true, ipv4 := ipv4)
    case Install(kernel, thunks) => Installed(s, kernel, thunks)
    case Rewrite(targets) => s.(table := targets)
  }

  function Run(s: World, actions: seq<Action>): World
    decreases |actions|
  {
    if actions == [] then s else Run(Next(s, actions[0]), actions[1..])
  }

  predicate LegalRun(s: World, actions: seq<Action>)
    decreases |actions|
  {
    actions == [] || (Legal(s, actions[0]) && LegalRun(Next(s, actions[0]), actions[1..]))
  }

  /** The slots as they would be had the host never installed anything. */
  function GuestSlots(slots: Slots<uint32>, actions: seq<Action>): Slots<uint32>
    decreases |actions|
  {
    if actions == [] then slots
    else GuestSlots(if actions[0].Rewrite? then actions[0].targets else slots, actions[1..])
  }

  predicate HooksInstalled(s: World) {
    && Complete(s.table)
    && forall k: Kind :: s.table.At(k) in s.functions && s.functions[s.table.At(k)] == Hook(k)
  }

  /** Against the slots the guest last wrote: either they are in the table, or the hooks
      are and they are the originals. Zero never dispatches. */
  predicate Inv(s: World, guest: Slots<uint32>) {
    && 0 !in s.functions
    && GuestTargets(s.functions, guest)
    && (s.thunks.begin != 0 ==> s.thunks.begin in s.functions && s.functions[s.thunks.begin].Hook?)
    && (s.table == guest
        || (HooksInstalled(s) && s.table == s.thunks && s.originals == guest && Complete(guest)))
  }

  lemma InstallKeepsInv(s: World, guest: Slots<uint32>, kernel: bool, thunks: Slots<uint32>)
    requires Inv(s, guest) && Fresh(s.functions, thunks)
    ensures Inv(Installed(s, kernel, thunks), guest)
  {
    var w := AllAllocated(s.functions, thunks);
    AllocationKeepsFunctions(s.functions, thunks);
    assert AlreadyInstalled(s) || s.table == guest;
    if Complete(thunks) {
      assert forall k: Kind :: w[thunks.At(k)] == Hook(k);
    }
  }

  /** Allocation moves no function, and a new thunk dispatches to its own hook. */
  lemma AllocationKeepsFunctions(functions: map<uint32, Function>, thunks: Slots<uint32>)
    requires Fresh(functions, thunks)
    ensures var w := AllAllocated(functions, thunks);
            && (forall t :: t in functions ==> t in w && w[t] == functions[t])
            && (0 in w <==> 0 in functions)
            && (forall k: Kind :: thunks.At(k) != 0 ==> thunks.At(k) in w && w[thunks.At(k)] == Hook(k))
  {
    assert thunks.At(Begin) == thunks.begin && thunks.At(Poll) == thunks.poll && thunks.At(Cancel) == thunks.cancel;
  }

  lemma {:induction false} RunKeepsInv(s: World, guest: Slots<uint32>, actions: seq<Action>)
    requires Inv(s, guest) && LegalRun(s, actions)
    ensures Inv(Run(s, actions), GuestSlots(guest, actions))
    ensures forall t :: t in s.functions ==> t in Run(s, actions).functions && Run(s, actions).functions[t] == s.functions[t]
    decreases |actions|
  {
    if actions != [] {
      var next := Next(s, actions[0]);
      if actions[0].Install? {
        InstallKeepsInv(s, guest, actions[0].kernel, actions[0].thunks);
        AllocationKeepsFunctions(s.functions, actions[0].thunks);
      }
      RunKeepsInv(next, if actions[0].Rewrite? then actions[0].targets else guest, actions[1..]);
    }
  }

  /** No run makes a thunk an original: whatever the table holds, a call that is not the
      retail lobby's is answered as if the host had installed nothing, through at most
      one forward. */
  lemma ForeignCallsSeeOnlyTheGuest(s: World, actions: seq<Action>, k: Kind, call: Call)
    requires Inv(s, s.table) && LegalRun(s, actions) && !Mine(k, call)
    ensures var end, own := Run(s, actions), GuestSlots(s.table, actions).At(k);
            && (own == 0 || (own in end.functions && end.functions[own].Guest?))
            && Resolve(end, end.table.At(k), call, 1)
               == Some(if own == 0 then Missing else Reached(end.functions[own].name))
  {
    RunKeepsInv(s, s.table, actions);
    var end := Run(s, actions);
    var own := GuestSlots(s.table, actions).At(k);
    assert GuestTarget(end.functions, own);
    if end.table != GuestSlots(s.table, actions) {
      assert end.functions[end.table.At(k)] == Hook(k) && end.originals.At(k) == own;
      ForwardsOnce(end, k, call);
    }
  }

  lemma ForwardsOnce(s: World, k: Kind, call: Call)
    requires s.table.At(k) in s.functions && s.functions[s.table.At(k)] == Hook(k) && !Mine(k, call)
    requires s.originals.At(k) in s.functions ==> s.functions[s.originals.At(k)].Guest?
    ensures Resolve(s, s.table.At(k), call, 1) == Resolve(s, s.originals.At(k), call, 0)
  {
  }

  /** And once an install has returned true, the retail hostname and its handle get the
      synthetic answers, without reaching the guest. */
  lemma InstallAnswersTheRetailLobby(s: World, guest: Slots<uint32>, kernel: bool, thunks: Slots<uint32>, k: Kind, call: Call)
    requires Inv(s, guest) && Fresh(s.functions, thunks) && Installs(s, kernel, thunks) && Mine(k, call)
    ensures var r := Installed(s, kernel, thunks);
            && HookStep(r.originals, k, call).Done?
            && Resolve(r, r.table.At(k), call, 0) == Some(Synthetic(HookStep(r.originals, k, call).r3))
  {
    InstallKeepsInv(s, guest, kernel, thunks);
    AllocationKeepsFunctions(s.functions, thunks);
    var r := Installed(s, kernel, thunks);
    assert r.thunks.begin != 0 && r.table.begin == r.thunks.begin;
    assert r.functions[r.table.At(k)] == Hook(k);
  }

  /** Installing over an installed table changes nothing and allocates nothing. */
  lemma InstallIsReentrant(s: World, kernel: bool, thunks: Slots<uint32>, again: Slots<uint32>)
    requires Installs(s, kernel, thunks)
    ensures Installed(Installed(s, kernel, thunks), kernel, again) == Installed(s, kernel, thunks)
  {
  }

  /** The first install: enabled, with a kernel, a complete table and the thunks it asked
      for, it returns true, keeps the guest's targets as originals and puts the thunks in. */
  lemma FirstInstall(s: World, thunks: Slots<uint32>)
    requires s.enabled && s.thunks.begin == 0 && Fresh(s.functions, thunks)
    requires s.table.begin != 0 && s.table.poll != 0 && s.table.cancel != 0
    requires thunks.begin != 0 && thunks.poll != 0 && thunks.cancel != 0
    ensures var r := Installed(s, true, thunks);
            && Installs(s, true, thunks)
            && r.originals == s.table && r.table == thunks && r.thunks == thunks
            && r.functions[thunks.begin] == Hook(Begin) && r.functions[thunks.poll] == Hook(Poll)
            && r.functions[thunks.cancel] == Hook(Cancel)
  {
    AllocationKeepsFunctions(s.functions, thunks);
    assert forall k: Kind :: thunks.At(k) != 0;
    assert thunks.At(Begin) == thunks.begin && thunks.At(Poll) == thunks.poll && thunks.At(Cancel) == thunks.cancel;
  }

  /** A whole life of the table: installed over the guest's functions, rewritten by the guest
      with functions of its own, and installed again with new thunks. Each install keeps the
      targets it found as originals, and a foreign call reaches those. */
  lemma TwoInstalls(s: World, first: Slots<uint32>, targets: Slots<uint32>, second: Slots<uint32>, k: Kind, foreign: Call)
    requires s.enabled && s.thunks.begin == 0 && Inv(s, s.table) && GuestFunctions(s.functions, s.table)
    requires Fresh(s.functions, first) && Complete(first) && GuestFunctions(s.functions, targets)
    requires Fresh(Installed(s, true, first).functions, second) && Complete(second) && !Mine(k, foreign)
    ensures var one := Installed(s, true, first);
            var two := Installed(one.(table := targets), true, second);
            && one.table == first && one.originals == s.table
            && two.table == second && two.originals == targets
            && Resolve(one, first.At(k), foreign, 1) == Some(Reached(s.functions[s.table.At(k)].name))
            && Resolve(two, second.At(k), foreign, 1) == Some(Reached(s.functions[targets.At(k)].name))
  {
    FirstInstall(s, first);
    InstallServes(s, s.table, first, k, foreign);
    var between := Installed(s, true, first).(table := targets);
    InstallKeepsInv(s, s.table, true, first);
    AllocationKeepsFunctions(s.functions, first);
    assert between.functions[first.begin] == Hook(Begin) && between.functions[targets.begin].Guest?;
    assert !AlreadyInstalled(between);
    InstallServes(between, targets, second, k, foreign);
  }

  lemma InstallServes(s: World, guest: Slots<uint32>, thunks: Slots<uint32>, k: Kind, foreign: Call)
    requires s.enabled && !AlreadyInstalled(s) && s.table == guest && GuestFunctions(s.functions, guest)
    requires Fresh(s.functions, thunks) && Complete(thunks) && !Mine(k, foreign)
    ensures var r := Installed(s, true, thunks);
            && r.table == thunks && r.originals == guest
            && Resolve(r, thunks.At(k), foreign, 1) == Some(Reached(s.functions[guest.At(k)].name))
  {
    AllocationKeepsFunctions(s.functions, thunks);
    ForwardsOnce(Installed(s, true, thunks), k, foreign);
  }

  /** An install that returns false touches no slot and no original; it happens exactly when
      the resolver is off, there is no kernel, or an install that is due finds a slot empty
      or gets a thunk refused. */
  lemma FailedInstallChangesNoSlot(s: World, kernel: bool, thunks: Slots<uint32>)
    ensures !Installs(s, kernel, thunks) <==>
            || !s.enabled || !kernel
            || (!(s.thunks.begin != 0 && s.table.begin == s.thunks.begin)
                && (s.table.begin == 0 || s.table.poll == 0 || s.table.cancel == 0
                    || thunks.begin == 0 || thunks.poll == 0 || thunks.cancel == 0))
    ensures !Installs(s, kernel, thunks) ==>
            var r := Installed(s, kernel, thunks);
            r.table == s.table && r.originals == s.originals && r.thunks == s.thunks
  {
  }

  // ------------------------------------------- partial rewrites of the table

  /** The guest rewrites the slots of `mask` only. */
  function PartlyRewritten(s: World, mask: Slots<bool>, targets: Slots<uint32>): World {
    s.(table := Slots(if mask.begin then targets.begin else s.table.begin,
                      if mask.poll then targets.poll else s.table.poll,
                      if mask.cancel then targets.cancel else s.table.cancel))
  }

  /** The hook answers its own calls, and every other reaches the guest in one hop. */
  predicate Served(s: World, k: Kind, call: Call) {
    var answer := Resolve(s, s.table.At(k), call, 1);
    answer.Some? && if Mine(k, call) then answer.value.Synthetic? else answer.value.Reached?
  }

  ghost predicate Serves(s: World, k: Kind) {
    forall call: Call :: Served(s, k, call)
  }

  ghost predicate InForce(s: World) {
    forall k: Kind :: Serves(s, k)
  }

  predicate GuestFunctions(functions: map<uint32, Function>, targets: Slots<uint32>) {
    GuestTargets(functions, targets) && Complete(targets)
  }

  lemma HookOverGuestServes(s: World, k: Kind)
    requires s.table.At(k) in s.functions && s.functions[s.table.At(k)] == Hook(k)
    requires s.originals.At(k) in s.functions && s.functions[s.originals.At(k)].Guest?
    ensures Serves(s, k)
  {
    forall call: Call ensures Served(s, k, call) {
      if !Mine(k, call) {
        ForwardsOnce(s, k, call);
      }
    }
  }

  /** A slot left to the guest misses the retail lobby's handle. */
  lemma GuestSlotDoesNotServe(s: World, k: Kind)
    requires !k.Begin? && s.table.At(k) in s.functions && s.functions[s.table.At(k)].Guest?
    ensures !Serves(s, k)
  {
    assert !Served(s, k, Call(RESOLVER_HANDLE, 0, [], true));
  }

  /** A thunk that became its own kind's original forwards foreign calls to itself for
      ever: they never reach the guest. */
  lemma {:induction false} SelfOriginalNeverReturns(s: World, k: Kind, target: uint32, call: Call, hops: nat)
    requires target in s.functions && s.functions[target] == Hook(k)
    requires s.originals.At(k) in s.functions && s.functions[s.originals.At(k)] == Hook(k)
    requires !Mine(k, call)
    ensures Resolve(s, target, call, hops) == None
    decreases hops
  {
    if hops > 0 {
      SelfOriginalNeverReturns(s, k, s.originals.At(k), call, hops - 1);
    }
  }

  lemma SelfOriginalDoesNotServe(s: World, k: Kind)
    requires s.table.At(k) in s.functions && s.functions[s.table.At(k)] == Hook(k)
    requires s.originals.At(k) in s.functions && s.functions[s.originals.At(k)] == Hook(k)
    ensures !Serves(s, k)
  {
    var call := Call(0, 0, [], true);
    assert !Mine(k, call);
    SelfOriginalNeverReturns(s, k, s.table.At(k), call, 1);
    assert !Served(s, k, call);
  }

  /** Only the begin slot tells an install whether it is in place. So over an installed
      table of which the guest rewrote some slots, the next install puts the hooks back
      in force exactly when the guest rewrote all three slots or none. */
  lemma ReinstallServesExactlyAfterFullRewrites(s: World, mask: Slots<bool>, targets: Slots<uint32>, thunks: Slots<uint32>)
    requires s.enabled && HooksInstalled(s) && s.table == s.thunks && GuestFunctions(s.functions, s.originals)
    requires GuestFunctions(s.functions, targets) && Fresh(s.functions, thunks) && Complete(thunks)
    requires 0 !in s.functions
    ensures InForce(Installed(PartlyRewritten(s, mask, targets), true, thunks))
       <==> mask.begin == mask.poll == mask.cancel
  {
    var p := PartlyRewritten(s, mask, targets);
    var r := Installed(p, true, thunks);
    SlotFunctions(s);
    if mask.begin {
      AllocationKeepsFunctions(s.functions, thunks);
      assert r.originals == p.table && r.table == thunks;
      SlotFunctions(r);
      if !mask.poll {
        SelfOriginalDoesNotServe(r, Poll);
      } else if !mask.cancel {
        SelfOriginalDoesNotServe(r, Cancel);
      } else {
        AllServe(r);
      }
    } else {
      assert r == p;
      if mask.poll {
        GuestSlotDoesNotServe(r, Poll);
      } else if mask.cancel {
        GuestSlotDoesNotServe(r, Cancel);
      } else {
        AllServe(r);
      }
    }
  }

  lemma SlotFunctions(s: World)
    requires HooksInstalled(s)
    ensures s.table.begin in s.functions && s.functions[s.table.begin] == Hook(Begin)
    ensures s.table.poll in s.functions && s.functions[s.table.poll] == Hook(Poll)
    ensures s.table.cancel in s.functions && s.functions[s.table.cancel] == Hook(Cancel)
  {
    assert s.table.At(Begin) == s.table.begin && s.table.At(Poll) == s.table.poll && s.table.At(Cancel) == s.table.cancel;
  }

  lemma AllServe(s: World)
    requires HooksInstalled(s) && GuestFunctions(s.functions, s.originals)
    ensures InForce(s)
  {
    forall k: Kind ensures Serves(s, k) {
      HookOverGuestServes(s, k);
    }
  }

  // ------------------------------------------------------------ the hooks

  /** Reading at `address` up to the first difference from `expected`, or through its
      terminator, stays inside `memory`: true of any terminated string, and of whatever
      differs early enough. */
  predicate Comparable(memory: seq<byte>, address: nat, expected: seq<byte>) {
    address <= |memory| && !(memory[address..] <= expected)
  }

  /** Compares up to the first difference or the terminator. It reads nothing else, so
      that much memory is all it needs. */
  method GuestStringEquals(memory: seq<byte>, address: uint32, expected: seq<byte>) returns (equal: bool)
    requires address != 0 ==> Comparable(memory, address, expected)
    ensures equal == (address != 0 && HoldsString(memory, address, expected))
  {
    if address == 0 {
      return false;
    }
    var index := 0;
    while index < |expected|
      invariant index <= |expected| && address + index < |memory|
      invariant memory[address..address + index] == expected[..index]
    {
      if memory[address + index] != expected[index] {
        return false;
      }
      assert memory[address..address + index + 1] == memory[address..address + index] + [memory[address + index]];
      index := index + 1;
      AgreementStaysInside(memory, address, expected, index);
    }
    return memory[address + index] == 0;
  }

  lemma AgreementStaysInside(memory: seq<byte>, address: nat, expected: seq<byte>, n: nat)
    requires Comparable(memory, address, expected) && n <= |expected| && address + n <= |memory|
    requires memory[address..address + n] == expected[..n]
    ensures address + n < |memory|
  {
  }

  /** A terminated string can always be compared. */
  lemma TerminatedIsComparable(memory: seq<byte>, address: nat, end: nat, expected: seq<byte>)
    requires address <= end < |memory| && memory[end] == 0 && 0 !in expected
    ensures Comparable(memory, address, expected)
  {
    assert memory[address..][end - address] == 0;
  }

  /** The record a synthetic poll writes for the guest. */
  function HostRecord(ipv4: uint32): (s: seq<byte>)
    ensures |s| == 20
  {
    Zeros(4) + Be32(ipv4) + Zeros(12)
  }

  /** The address is read back at offset 4, big-endian; the rest of the record is zero. */
  lemma HostRecordFields(ipv4: uint32)
    ensures var r := HostRecord(ipv4);
            r[0..4] == Zeros(4) && ReadBe32(r, 4) == ipv4 && r[8..20] == Zeros(12)
  {
    var r := HostRecord(ipv4);
    assert r[4..8] == Be32(ipv4);
    ReadBeThroughSlice(r, 4, 8, 0);
  }

  /** The guest's service table, as far as the resolver uses it. */
  class ServiceTable {
    var slots: Slots<uint32>

    constructor (slots: Slots<uint32>)
      ensures this.slots == slots
    {
      this.slots := slots;
    }
  }

  class FunctionDispatcher {
    var functions: map<uint32, Function>

    constructor (functions: map<uint32, Function>)
      ensures this.functions == functions
    {
      this.functions := functions;
    }

    /** `address` is what the runtime's allocator answers, 0 when it fails. */
    method AllocateThunk(k: Kind, address: uint32) returns (thunk: uint32)
      modifies this
      ensures thunk == address && functions == Allocated(old(functions), k, address)
    {
      if address != 0 {
        functions := functions[address := Hook(k)];
      }
      return address;
    }
  }

  class DirectPolResolver {
    const table: ServiceTable
    const dispatcher: FunctionDispatcher
    var enabled: bool
    var ipv4: uint32
    var thunks: Slots<uint32>
    var originals: Slots<uint32>

    ghost function View(): World
      reads this, table, dispatcher
    {
      World(enabled, ipv4, thunks, originals, table.slots, dispatcher.functions)
    }

    constructor (table: ServiceTable, dispatcher: FunctionDispatcher)
      ensures this.table == table && this.dispatcher == dispatcher
      ensures View() == World(false, 0, Slots(0, 0, 0), Slots(0, 0, 0), table.slots, dispatcher.functions)
    {
      this.table, this.dispatcher := table, dispatcher;
      enabled, ipv4 := false, 0;
      thunks, originals := Slots(0, 0, 0), Slots(0, 0, 0);
    }

    method Enable(address: uint32)
      modifies this
      ensures View() == old(View()).(enabled := true, ipv4 := address)
    {
      ipv4 := address;
      enabled := true;
    }

    method Install(kernel: bool, answers: Slots<uint32>) returns (installed: bool)
      modifies this, table, dispatcher
      ensures View() == Installed(old(View()), kernel, answers)
      ensures installed == Installs(old(View()), kernel, answers)
    {
      if !enabled || !kernel {
        return false;
      }
      if thunks.begin != 0 && table.slots.begin == thunks.begin {
        return true;
      }
      var own := table.slots;
      if own.begin == 0 || own.poll == 0 || own.cancel == 0 {
        return false;
      }
      var begin := dispatcher.AllocateThunk(Begin, answers.begin);
      var poll := dispatcher.AllocateThunk(Poll, answers.poll);
      var cancel := dispatcher.AllocateThunk(Cancel, answers.cancel);
      if begin == 0 || poll == 0 || cancel == 0 {
        return false;
      }
      originals := own;
      thunks := Slots(begin, poll, cancel);
      table.slots := table.slots.(begin := begin);
      table.slots := table.slots.(poll := poll);
      table.slots := table.slots.(cancel := cancel);
      return true;
    }

    method OnBegin(r3: uint32, network: bool, memory: array<byte>) returns (step: Step)
      requires r3 != 0 ==> Comparable(memory[..], r3, RETAIL_HOSTNAME)
      ensures forall r4 :: step == HookStep(originals, Begin, Call(r3, r4, memory[..], network))
    {
      var retail := GuestStringEquals(memory[..], r3, RETAIL_HOSTNAME);
      if !retail {
        return Forwarded(originals.begin);
      }
      if !network {
        return Done(UNAVAILABLE);
      }
      return Done(RESOLVER_HANDLE);
    }

    /** The synthetic answer is one 20-byte record; a forwarded poll writes nothing here. */
    method OnPoll(r3: uint32, r4: uint32, memory: array<byte>) returns (step: Step)
      requires r3 == RESOLVER_HANDLE && r4 != 0 ==> r4 + 20 <= memory.Length
      modifies memory
      ensures forall network :: step == HookStep(originals, Poll, Call(r3, r4, old(memory[..]), network))
      ensures memory[..] == if step == Done(1) then old(memory[..r4]) + HostRecord(ipv4) + old(memory[r4 + 20..])
                            else old(memory[..])
    {
      if r3 != RESOLVER_HANDLE {
        return Forwarded(originals.poll);
      }
      if r4 == 0 {
        return Done(INVALID_ARGUMENT);
      }
      WriteRecord(r4, memory);
      return Done(1);
    }

    method WriteRecord(at: nat, memory: array<byte>)
      requires at + 20 <= memory.Length
      modifies memory
      ensures memory[..] == old(memory[..at]) + HostRecord(ipv4) + old(memory[at + 20..])
    {
      CopyInto(Zeros(20), memory, at);
      assert memory[..] == old(memory[..at]) + Zeros(4) + Zeros(4) + Zeros(12) + old(memory[at + 20..]);
      CopyInto(Be32(ipv4), memory, at + 4);
    }

    method OnCancel(r3: uint32) returns (step: Step)
      ensures forall r4, network, memory :: step == HookStep(originals, Cancel, Call(r3, r4, memory, network))
    {
      if r3 != RESOLVER_HANDLE {
        return Forwarded(originals.cancel);
      }
      return Done(0);
    }
  }
}
