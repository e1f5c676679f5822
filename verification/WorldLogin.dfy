/** The two in-place repairs of an outgoing world datagram: the character ID of a login
    packet, and a missing target endpoint. */
module WorldLogin {
  import opened Bytes

  const OUTER_HEADER_SIZE := 28
  const LOGIN_PACKET_SIZE := 92
  const OUTER_DIGEST_SIZE := 16
  const LOGIN_CHECK_OFFSET := 32
  const LOGIN_CHECK_START := 36
  const UNIQUE_NO_OFFSET := 40
  const LOGIN_END := OUTER_HEADER_SIZE + LOGIN_PACKET_SIZE
  const SMALLEST_LOGIN := 136

  /** Sum of `bytes` in an eight-bit accumulator. */
  function Sum8(bytes: seq<byte>): byte {
    if bytes == [] then 0
    else
      var last: int := bytes[|bytes| - 1];
      (Sum8(bytes[..|bytes| - 1]) + last) % 0x100
  }

  function Sum(bytes: seq<byte>): nat {
    if bytes == [] then 0 else Sum(bytes[..|bytes| - 1]) + bytes[|bytes| - 1]
  }

  /** The wrapping accumulator holds the true sum mod 256. */
  lemma {:induction false} Sum8IsSumMod256(bytes: seq<byte>)
    ensures Sum8(bytes) == Sum(bytes) % 0x100
  {
    if bytes != [] {
      Sum8IsSumMod256(bytes[..|bytes| - 1]);
      WrappingAdd(Sum(bytes[..|bytes| - 1]), bytes[|bytes| - 1]);
    }
  }

  lemma WrappingAdd(a: nat, b: nat)
    ensures (a % 0x100 + b) % 0x100 == (a + b) % 0x100
  {
    assert a == 0x100 * (a / 0x100) + a % 0x100;
  }

  /** A login packet whose ID agrees with the stored one in its low 24 bits only. */
  predicate NeedsRestoring(packet: seq<byte>, fullId: uint32) {
    && |packet| >= SMALLEST_LOGIN
    && ReadLe32(packet, OUTER_HEADER_SIZE) % 0x200 == 0x0A
    && fullId != 0
    && ReadLe32(packet, UNIQUE_NO_OFFSET) != fullId
    && ReadLe32(packet, UNIQUE_NO_OFFSET) % 0x100_0000 == fullId % 0x100_0000
  }

  /** The same on the bytes: a login packet (id 0x00A in nine bits) of at least 136 bytes
      whose ID has the stored one's first three bytes and another fourth. */
  lemma NeedsRestoringInBytes(packet: seq<byte>, b0: byte, b1: byte, b2: byte, b3: byte)
    requires |packet| >= 136
    ensures var fullId := b0 + 0x100 * b1 + 0x1_0000 * b2 + 0x100_0000 * b3;
            NeedsRestoring(packet, fullId) <==>
            && packet[28] == 0x0A && packet[29] % 2 == 0
            && [b0, b1, b2, b3] != [0, 0, 0, 0]
            && packet[40] == b0 && packet[41] == b1 && packet[42] == b2 && packet[43] != b3
  {
    var p0: int, p1: int, p2: int, p3: int := packet[40], packet[41], packet[42], packet[43];
    LowThree(p0, p1, p2, p3, b0, b1, b2, b3);
    NineBits(packet[28], packet[29], packet[30], packet[31]);
  }

  lemma ShortLoginsStay(packet: seq<byte>, fullId: uint32)
    requires |packet| < 136 || fullId == 0
    ensures !NeedsRestoring(packet, fullId)
  {
  }

  lemma NineBits(b0: byte, b1: byte, b2: byte, b3: byte)
    ensures (b0 + 0x100 * b1 + 0x1_0000 * b2 + 0x100_0000 * b3) % 0x200 == 0x0A <==> b0 == 0x0A && b1 % 2 == 0
  {
    var rest := b1 / 2 + 0x80 * b2 + 0x8000 * b3;
    assert b0 + 0x100 * b1 + 0x1_0000 * b2 + 0x100_0000 * b3 == b0 + 0x100 * (b1 % 2) + 0x200 * rest;
  }

  lemma LowThree(p0: byte, p1: byte, p2: byte, p3: byte, b0: byte, b1: byte, b2: byte, b3: byte)
    ensures var p, b := p0 + 0x100 * p1 + 0x1_0000 * p2 + 0x100_0000 * p3, b0 + 0x100 * b1 + 0x1_0000 * b2 + 0x100_0000 * b3;
            && (p % 0x100_0000 == b % 0x100_0000 <==> p0 == b0 && p1 == b1 && p2 == b2)
            && (p % 0x100_0000 == b % 0x100_0000 ==> (p == b <==> p3 == b3))
            && (b == 0 <==> [b0, b1, b2, b3] == [0, 0, 0, 0])
  {
    var p, b := p0 + 0x100 * p1 + 0x1_0000 * p2, b0 + 0x100 * b1 + 0x1_0000 * b2;
    assert (p + 0x100_0000 * p3) % 0x100_0000 == p && (b + 0x100_0000 * b3) % 0x100_0000 == b;
  }

  function WithId(packet: seq<byte>, fullId: uint32): (r: seq<byte>)
    requires |packet| >= SMALLEST_LOGIN
    ensures |r| == |packet|
  {
    packet[..40] + Le32(fullId) + packet[44..]
  }

  function WithCheck(packet: seq<byte>): (r: seq<byte>)
    requires |packet| >= SMALLEST_LOGIN
    ensures |r| == |packet|
  {
    packet[..32] + [Sum8(packet[36..120])] + packet[33..]
  }

  function WithDigest(md5: seq<byte> -> Digest, packet: seq<byte>): (r: seq<byte>)
    requires |packet| >= SMALLEST_LOGIN
    ensures |r| == |packet|
  {
    packet[..|packet| - 16] + md5(packet[28..|packet| - 16])
  }

  function Restored(md5: seq<byte> -> Digest, packet: seq<byte>, fullId: uint32): (r: seq<byte>)
    requires |packet| >= SMALLEST_LOGIN
    ensures |r| == |packet|
  {
    WithDigest(md5, WithCheck(WithId(packet, fullId)))
  }

  /** What a restored packet is: it carries the full ID, its check byte is the sum of its
      own bytes 36..119, its trailer the digest of everything between, and nothing but
      byte 43, byte 32 and the trailer differs from the original. */
  lemma RestoredPacket(md5: seq<byte> -> Digest, packet: seq<byte>, fullId: uint32)
    requires NeedsRestoring(packet, fullId)
    ensures var r := Restored(md5, packet, fullId);
            && |r| == |packet|
            && ReadLe32(r, 40) == fullId
            && r[32] == Sum(r[36..120]) % 0x100
            && r[|r| - 16..] == md5(r[28..|r| - 16])
            && forall i :: 0 <= i < |r| - 16 && i != 43 && i != 32 ==> r[i] == packet[i]
  {
    var stamped := WithId(packet, fullId);
    LowBytesAgree(packet, fullId);
    var checked := WithCheck(stamped);
    assert checked[36..120] == stamped[36..120];
    Sum8IsSumMod256(stamped[36..120]);
    var r := WithDigest(md5, checked);
    var body := |packet| - 16;
    assert r[..body] == checked[..body];
    assert r[36..120] == checked[36..120];
    assert r[28..body] == checked[28..body];
    assert r[body..] == md5(checked[28..body]);
    assert stamped[40..44] == Le32(fullId);
    ReadThroughSlice(stamped, 40, 44, 0);
  }

  /** Only the top byte of the ID changes. */
  lemma LowBytesAgree(packet: seq<byte>, fullId: uint32)
    requires NeedsRestoring(packet, fullId)
    ensures forall i :: 0 <= i < |packet| && i != 43 ==> WithId(packet, fullId)[i] == packet[i]
  {
    Le32OfRead(packet, 40);
    var id := ReadLe32(packet, 40);
    LowBytes(id, fullId);
    assert packet[40..44][0] == packet[40] && packet[40..44][1] == packet[41] && packet[40..44][2] == packet[42];
  }

  lemma LowBytes(a: uint32, b: uint32)
    requires a % 0x100_0000 == b % 0x100_0000
    ensures Le32(a)[0] == Le32(b)[0] && Le32(a)[1] == Le32(b)[1] && Le32(a)[2] == Le32(b)[2]
  {
    SecondByte(a);
    SecondByte(b);
    ThirdByte(a);
    ThirdByte(b);
  }

  lemma SecondByte(a: uint32)
    ensures a / 0x100 % 0x100 == a % 0x100_0000 / 0x100 % 0x100
  {
    assert a / 0x100 == a % 0x100_0000 / 0x100 + 0x1_0000 * (a / 0x100_0000);
  }

  lemma ThirdByte(a: uint32)
    ensures a / 0x1_0000 % 0x100 == a % 0x100_0000 / 0x1_0000 % 0x100
  {
    assert a / 0x1_0000 == a % 0x100_0000 / 0x1_0000 + 0x100 * (a / 0x100_0000);
  }

  /** A restored packet needs no restoring for the same stored ID. */
  lemma RestoringIsDone(md5: seq<byte> -> Digest, packet: seq<byte>, fullId: uint32)
    requires NeedsRestoring(packet, fullId)
    ensures !NeedsRestoring(Restored(md5, packet, fullId), fullId)
  {
    RestoredPacket(md5, packet, fullId);
  }

  /** All or nothing, the rollback after a failed digest included. */
  method RestoreWorldLoginCharacterId(md5: seq<byte> -> Digest, up: bool, fullId: uint32, packet: array<byte>)
    returns (restored: bool)
    modifies packet
    ensures restored == (up && NeedsRestoring(old(packet[..]), fullId))
    ensures packet[..] == if restored then Restored(md5, old(packet[..]), fullId) else old(packet[..])
  {
    if packet.Length < SMALLEST_LOGIN || ReadLe32(packet[..], OUTER_HEADER_SIZE) % 0x200 != 0x0A {
      return false;
    }
    var packetId := ReadLe32(packet[..], UNIQUE_NO_OFFSET);
    if fullId == 0 || packetId == fullId || packetId % 0x100_0000 != fullId % 0x100_0000 {
      return false;
    }
    ghost var before := packet[..];
    var originalCheck := packet[LOGIN_CHECK_OFFSET];
    StampLogin(packet, fullId);
    if !up {
      RollBack(packet, packetId, originalCheck, before, fullId);
      return false;
    }
    StampDigest(md5, packet);
    return true;
  }

  method StampLogin(packet: array<byte>, fullId: uint32)
    requires packet.Length >= SMALLEST_LOGIN
    modifies packet
    ensures packet[..] == WithCheck(WithId(old(packet[..]), fullId))
  {
    WriteLe32(packet, UNIQUE_NO_OFFSET, fullId);
    var check := LoginCheck(packet);
    packet[LOGIN_CHECK_OFFSET] := check;
  }

  method StampDigest(md5: seq<byte> -> Digest, packet: array<byte>)
    requires packet.Length >= SMALLEST_LOGIN
    modifies packet
    ensures packet[..] == WithDigest(md5, old(packet[..]))
  {
    var trailer := packet.Length - OUTER_DIGEST_SIZE;
    CopyInto(md5(packet[OUTER_HEADER_SIZE..trailer]), packet, trailer);
  }

  method RollBack(packet: array<byte>, packetId: uint32, originalCheck: byte, ghost before: seq<byte>,
                  ghost fullId: uint32)
    requires |before| >= SMALLEST_LOGIN && packet[..] == WithCheck(WithId(before, fullId))
    requires packetId == ReadLe32(before, UNIQUE_NO_OFFSET) && originalCheck == before[LOGIN_CHECK_OFFSET]
    modifies packet
    ensures packet[..] == before
  {
    WriteLe32(packet, UNIQUE_NO_OFFSET, packetId);
    packet[LOGIN_CHECK_OFFSET] := originalCheck;
    RolledBack(before, fullId);
  }

  method LoginCheck(packet: array<byte>) returns (check: byte)
    requires packet.Length >= SMALLEST_LOGIN
    ensures check == Sum8(packet[36..120])
  {
    check := 0;
    var offset := LOGIN_CHECK_START;
    while offset < LOGIN_END
      invariant 36 <= offset <= 120
      invariant check == Sum8(packet[36..offset])
    {
      var added: int := packet[offset];
      assert packet[36..offset + 1][..offset - 36] == packet[36..offset];
      check := (check + added) % 0x100;
      offset := offset + 1;
    }
  }

  lemma RolledBack(before: seq<byte>, fullId: uint32)
    requires |before| >= SMALLEST_LOGIN
    ensures var changed := WithCheck(WithId(before, fullId));
            var id := changed[..40] + Le32(ReadLe32(before, 40)) + changed[44..];
            id[32 := before[32]] == before
  {
    Le32OfRead(before, 40);
    assert before == before[..40] + before[40..44] + before[44..];
  }

  // -------------------------------------------------------- endpoint repair

  datatype Endpoint = Endpoint(enabled: bool, ipv4: uint32, port: uint16)

  predicate IsEndpoint(ipv4: uint32, port: uint16) {
    ipv4 != 0 && port != 0 && port != 0xFFFF
  }

  /** The port a socket address holds, big-endian. */
  function PortOf(target: seq<byte>): uint16
    requires |target| >= 8
  {
    var high: int, low: int := target[2], target[3];
    0x100 * high + low
  }

  function AddressOf(target: seq<byte>): uint32
    requires |target| >= 8
  {
    ReadBe32(target, 4)
  }

  predicate LacksEndpoint(target: seq<byte>)
    requires |target| >= 8
  {
    PortOf(target) == 0 || PortOf(target) == 0xFFFF
  }

  lemma UnusablePorts(high: byte, low: byte)
    ensures 0x100 * high + low == 0 <==> [high, low] == [0, 0]
    ensures 0x100 * high + low == 0xFFFF <==> [high, low] == [0xFF, 0xFF]
  {
  }

  class DirectMapEndpoint {
    var enabled: bool
    var ipv4: uint32
    var port: uint16

    ghost predicate Valid()
      reads this
    {
      enabled ==> IsEndpoint(ipv4, port)
    }

    ghost function View(): Endpoint
      reads this
    {
      Endpoint(enabled, ipv4, port)
    }

    constructor ()
      ensures Valid() && View() == Endpoint(false, 0, 0)
    {
      enabled, ipv4, port := false, 0, 0;
    }

    method Configure(address: uint32, mapPort: uint16) returns (ok: bool)
      requires Valid()
      modifies this
      ensures Valid()
      ensures ok == (address != 0 && mapPort != 0 && mapPort != 0xFFFF)
      ensures View() == if ok then Endpoint(true, address, mapPort) else old(View())
    {
      if address == 0 || mapPort == 0 || mapPort == 0xFFFF {
        return false;
      }
      ipv4 := address;
      port := mapPort;
      enabled := true;
      return true;
    }

    method Clear()
      modifies this
      ensures Valid() && View() == Endpoint(false, 0, 0)
    {
      enabled := false;
      ipv4 := 0;
      port := 0;
    }

    /** A target without a usable port gets the configured endpoint in its first eight
        bytes, as an IPv4 address; any other target, and every later byte, is kept. A
        repaired target no longer lacks an endpoint, so repairing is idempotent. */
    method RepairTarget(target: array<byte>)
      requires Valid() && target.Length >= 8
      modifies target
      ensures var repairs := enabled && LacksEndpoint(old(target[..]));
              && target[8..] == old(target[8..])
              && (!repairs ==> target[..] == old(target[..]))
              && (repairs ==> target[..2] == [0, 2] && PortOf(target[..]) == port && AddressOf(target[..]) == ipv4)
      ensures enabled ==> !LacksEndpoint(target[..])
      // On the bytes: the two port bytes both zero or both 255, and then high byte first.
      ensures var lacks := old(target[2..4]) in {[0, 0], [0xFF, 0xFF]};
              && (enabled && lacks ==> target[..8] == [0, 2] + [port / 0x100, port % 0x100] + Be32(ipv4))
              && (!(enabled && lacks) ==> target[..] == old(target[..]))
    {
      var high: int, low: int := target[2], target[3];
      var originalPort := 0x100 * high + low;
      assert target[2..4] == [high, low];
      UnusablePorts(high, low);
      if (originalPort == 0 || originalPort == 0xFFFF) && enabled {
        StoreEndpoint(target);
      }
    }

    /** The whole send hook. Without a packet, without a target or with a short target it
        touches nothing; otherwise each repair does its own buffer and only that. */
    method OnSendTarget(md5: seq<byte> -> Digest, up: bool, restoring: bool, fullId: uint32,
                        packet: array?<byte>, target: array?<byte>)
      requires Valid() && (packet == null || packet != target)
      modifies if packet == null then {} else {packet}, if target == null then {} else {target}
      ensures var runs := packet != null && target != null && target.Length >= 8;
              && (packet != null ==>
                    packet[..] == if runs && restoring && up && NeedsRestoring(old(packet[..]), fullId)
                                  then Restored(md5, old(packet[..]), fullId) else old(packet[..]))
              && (target != null && !(runs && enabled && LacksEndpoint(old(target[..]))) ==>
                    target[..] == old(target[..]))
              && (runs && enabled && LacksEndpoint(old(target[..])) ==>
                    target[8..] == old(target[8..]) && target[..2] == [0, 2]
                    && PortOf(target[..]) == port && AddressOf(target[..]) == ipv4)
    {
      if packet == null || target == null || target.Length < 8 {
        return;
      }
      if restoring {
        var restored := RestoreWorldLoginCharacterId(md5, up, fullId, packet);
      }
      RepairTarget(target);
    }

    method StoreEndpoint(target: array<byte>)
      requires target.Length >= 8
      modifies target
      ensures target[8..] == old(target[8..]) && target[..2] == [0, 2]
      ensures target[2..4] == [port / 0x100, port % 0x100] && target[4..8] == Be32(ipv4)
      ensures PortOf(target[..]) == port && AddressOf(target[..]) == ipv4
    {
      StorePort(target);
      ghost var word := Le32(ipv4);
      target[4] := ipv4 / 0x100_0000;
      target[5] := ipv4 / 0x1_0000 % 0x100;
      target[6] := ipv4 / 0x100 % 0x100;
      target[7] := ipv4 % 0x100;
      assert target[4..8] == [word[3], word[2], word[1], word[0]];
    }

    method StorePort(target: array<byte>)
      requires target.Length >= 8
      modifies target
      ensures target[4..] == old(target[4..]) && target[..2] == [0, 2] && PortOf(target[..]) == port
    {
      target[0] := 0;
      target[1] := 2;
      target[2] := port / 0x100;
      target[3] := port % 0x100;
    }
  }
}
