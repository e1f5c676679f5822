/** The zone-descriptor lookup hook: a scan of the guest's 64 connection slots, and a
    descriptor synthesised in the first when a lookup failed and none is active. */
module Descriptors {
  import opened Bytes

  const SLOTS := 64
  const SLOT_SIZE := 104
  const TABLE_SIZE := 6656
  const RECORDS := 16
  const DESCRIPTOR_SIZE := 24

  type Table = t: seq<byte> | |t| == 6656 witness Zeros(6656)

  /** The selected character record's descriptor fields. */
  datatype Record = Record(identifier: uint32, high: bv16, low: bv16, middle: bv8)

  /** One call: r3 as a signed result, the selected index, and the state pointer with the
      record behind it (None for a null pointer). */
  datatype Lookup = Lookup(result: int, selected: uint32, record: Option<Record>)

  // -------------------------------------------------------------- arithmetic

  /** The endpoint as the hook computes it, with two masked rotations. */
  function Endpoint(r: Record): bv32 {
    var combined := ((r.middle as bv32) << 16) + (r.high as bv32);
    var intermediate := ((r.low as bv32).RotateLeft(8) & 0x00FFFF00) | (combined & 0xFFFF0000);
    (intermediate.RotateLeft(8) & 0xFFFFFF00) | (combined & 0xFFFF)
  }

  /** The rotations lose nothing: the endpoint is the low half, its high byte or-ed with
      the extra byte, above the high half. */
  lemma EndpointIsConcatenation(r: Record)
    ensures Endpoint(r) == ((((r.low as bv32) | ((r.middle as bv32) << 8)) << 16) | (r.high as bv32))
  {
    RotationsConcatenate(r.low as bv32, r.middle as bv32, r.high as bv32);
  }

  lemma RotationsConcatenate(low: bv32, middle: bv32, high: bv32)
    requires low <= 0xFFFF && middle <= 0xFF && high <= 0xFFFF
    ensures var combined := (middle << 16) + high;
            var intermediate := (low.RotateLeft(8) & 0x00FFFF00) | (combined & 0xFFFF0000);
            ((intermediate.RotateLeft(8) & 0xFFFFFF00) | (combined & 0xFFFF)) == (((low | (middle << 8)) << 16) | high)
  {
  }

  // -------------------------------------------------------------------- scan

  /** A slot's status is the big-endian half it starts with; its lowest bit is "active". */
  predicate Active(table: Table, i: nat)
    requires i < SLOTS
  {
    table[SLOT_SIZE * i + 1] % 2 == 1
  }

  function ActiveBelow(table: Table, n: nat): set<nat>
    requires n <= SLOTS
  {
    set i: nat | i < n && Active(table, i)
  }

  /** No slot is active. */
  predicate NoneActive(table: Table)
  {
    forall i: nat :: i < SLOTS ==> !Active(table, i)
  }

  // --------------------------------------------------------------- synthesis

  function Descriptor(r: Record): (d: seq<byte>)
    ensures |d| == DESCRIPTOR_SIZE
  {
    [0, 1, 0, 1] + Be32(Endpoint(r) as uint32) + Zeros(4) + Be32(r.identifier) + Zeros(8)
  }

  /** The fields read back: status and use 1, the endpoint's word, the identifier as a
      64-bit value, zero. */
  lemma DescriptorFields(r: Record)
    ensures var d := Descriptor(r);
            && d[0..4] == [0, 1, 0, 1]
            && ReadBe32(d, 4) == Endpoint(r) as uint32
            && d[8..12] == Zeros(4) && ReadBe32(d, 12) == r.identifier
            && d[16..24] == Zeros(8)
  {
    var d := Descriptor(r);
    assert d[4..8] == Be32(Endpoint(r) as uint32) && d[12..16] == Be32(r.identifier);
    ReadBeThroughSlice(d, 4, 8, 0);
    ReadBeThroughSlice(d, 12, 16, 0);
  }

  predicate Synthesises(enabled: bool, table: Table, c: Lookup)
  {
    enabled && c.record.Some? && c.selected < RECORDS && c.result < 0 && NoneActive(table)
  }

  /** Exactly when: switched on, with a state, a selected index below 16, a negative result
      and the lowest status bit clear in all 64 slots of 104 bytes. */
  lemma SynthesisesExactly(enabled: bool, table: Table, c: Lookup)
    ensures Synthesises(enabled, table, c) <==>
            && enabled && c.record.Some? && c.selected < 16 && c.result < 0
            && forall i: nat :: i < 64 ==> table[104 * i + 1] % 2 == 0
  {
    if Synthesises(enabled, table, c) {
      forall i: nat | i < 64 ensures table[104 * i + 1] % 2 == 0 {
        assert !Active(table, i);
      }
    } else if enabled && c.record.Some? && c.selected < 16 && c.result < 0 {
      var i: nat :| i < SLOTS && Active(table, i);
      assert table[104 * i + 1] % 2 == 1;
    }
  }

  function Synthesised(enabled: bool, table: Table, c: Lookup): (r: Table)
  {
    if Synthesises(enabled, table, c) then Descriptor(c.record.value) + table[DESCRIPTOR_SIZE..] else table
  }

  /** A synthesis activates the first slot and no other. */
  lemma SynthesisActivatesTheFirstSlot(table: Table, c: Lookup)
    requires Synthesises(true, table, c)
    ensures ActiveBelow(Synthesised(true, table, c), SLOTS) == {0}
  {
    var r := Synthesised(true, table, c);
    forall i: nat | 0 < i < SLOTS ensures !Active(r, i) {
      assert !Active(table, i);
      assert r[SLOT_SIZE * i + 1] == table[SLOT_SIZE * i + 1];
    }
    assert r[1] == 1;
    assert Active(r, 0);
  }

  /** The guest and the hook take turns on the table. */
  datatype Action = Hook(c: Lookup) | GuestWrite(table: Table)

  function Next(table: Table, a: Action): (r: Table)
  {
    match a
    case Hook(c) => Synthesised(true, table, c)
    case GuestWrite(written) => written
  }

  function Syntheses(table: Table, actions: seq<Action>): nat
    decreases |actions|
  {
    if actions == [] then 0
    else
      (if actions[0].Hook? && Synthesises(true, table, actions[0].c) then 1 else 0)
      + Syntheses(Next(table, actions[0]), actions[1..])
  }

  /** While the guest leaves the first slot active, nothing more is synthesised. */
  lemma {:induction false} NoSynthesisWhileActive(table: Table, actions: seq<Action>)
    requires Active(table, 0)
    requires forall i :: 0 <= i < |actions| && actions[i].GuestWrite? ==> Active(actions[i].table, 0)
    ensures Syntheses(table, actions) == 0
    decreases |actions|
  {
    if actions != [] {
      NoSynthesisWhileActive(Next(table, actions[0]), actions[1..]);
    }
  }

  /** So over any run the hook synthesises at most once more than the guest clears the
      first slot. */
  lemma {:induction false} SynthesesAreBounded(table: Table, actions: seq<Action>)
    ensures Syntheses(table, actions) <= Clearings(actions) + if Active(table, 0) then 0 else 1
    decreases |actions|
  {
    if actions != [] {
      if actions[0].Hook? && Synthesises(true, table, actions[0].c) {
        SynthesisActivatesTheFirstSlot(table, actions[0].c);
        assert 0 in ActiveBelow(Next(table, actions[0]), SLOTS);
      }
      SynthesesAreBounded(Next(table, actions[0]), actions[1..]);
    }
  }

  function Clearings(actions: seq<Action>): nat
  {
    if actions == [] then 0
    else
      (if actions[0].GuestWrite? && !Active(actions[0].table, 0) then 1 else 0) + Clearings(actions[1..])
  }

  class ConnectionTable {
    const connections: array<byte>
    const localEndpoint: array<byte>

    ghost predicate Valid() {
      connections.Length == TABLE_SIZE && localEndpoint.Length == 8 && connections != localEndpoint
    }

    constructor ()
      ensures Valid() && fresh(connections) && fresh(localEndpoint)
    {
      connections := new byte[TABLE_SIZE](_ => 0);
      localEndpoint := new byte[8](_ => 0);
    }

    /** The exact number of active slots, and the least of them (64 when there is none). */
    method Scan() returns (count: nat, first: nat)
      requires Valid()
      ensures count == |ActiveBelow(connections[..], SLOTS)|
      ensures first <= SLOTS && (first < SLOTS ==> Active(connections[..], first))
      ensures forall i: nat :: i < first ==> !Active(connections[..], i)
    {
      count, first := 0, SLOTS;
      var index := 0;
      while index < SLOTS
        invariant index <= SLOTS
        invariant count == |ActiveBelow(connections[..], index)|
        invariant first == SLOTS || (first < index && Active(connections[..], first))
        invariant forall i: nat :: i < index && i < first ==> !Active(connections[..], i)
      {
        OneMoreSlot(connections[..], index);
        if connections[SLOT_SIZE * index + 1] % 2 != 0 {
          count := count + 1;
          if first == SLOTS {
            first := index;
          }
        }
        index := index + 1;
      }
    }

    /** Returns the new r3; `record` is read through the state pointer. */
    method OnLookup(enabled: bool, c: Lookup) returns (result: int)
      requires Valid()
      modifies connections, localEndpoint
      ensures var synthesises := Synthesises(enabled, old(connections[..]), c);
              && connections[..] == Synthesised(enabled, old(connections[..]), c)
              && localEndpoint[..] == (if synthesises then Zeros(7) + [1] else old(localEndpoint[..]))
              && result == (if synthesises then 0 else c.result)
    {
      if c.record.None? || c.selected >= RECORDS {
        return c.result;
      }
      var count, first := Scan();
      NoneIsZero(connections[..]);
      if c.result < 0 && count == 0 && enabled {
        Store(c.record.value);
        return 0;
      }
      return c.result;
    }

    method Store(r: Record)
      requires Valid()
      modifies connections, localEndpoint
      ensures connections[..] == Descriptor(r) + old(connections[DESCRIPTOR_SIZE..])
      ensures localEndpoint[..] == Zeros(7) + [1]
    {
      CopyInto([0, 1] + [0, 1], connections, 0);
      CopyInto(Be32(Endpoint(r) as uint32), connections, 4);
      CopyInto(Zeros(4) + Be32(r.identifier), connections, 8);
      CopyInto(Zeros(8), connections, 16);
      CopyInto(Zeros(7) + [1], localEndpoint, 0);
    }
  }

  lemma OneMoreSlot(table: Table, n: nat)
    requires n < SLOTS
    ensures |ActiveBelow(table, n + 1)| == |ActiveBelow(table, n)| + if Active(table, n) then 1 else 0
  {
    if Active(table, n) {
      assert ActiveBelow(table, n + 1) == ActiveBelow(table, n) + {n};
    } else {
      assert ActiveBelow(table, n + 1) == ActiveBelow(table, n);
    }
  }

  lemma NoneIsZero(table: Table)
    ensures |ActiveBelow(table, SLOTS)| == 0 <==> NoneActive(table)
  {
    if NoneActive(table) {
      assert ActiveBelow(table, SLOTS) == {};
    } else {
      var i: nat :| i < SLOTS && Active(table, i);
      assert i in ActiveBelow(table, SLOTS);
    }
  }
}
