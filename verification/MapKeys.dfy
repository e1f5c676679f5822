/** The map-session key arithmetic shared by the host and the map server. */
module MapKeys {
  import opened Bytes
  import opened LobbyPackets

  function RolloverWord(key: Key): uint32 {
    ReadLe32(key, 16)
  }

  /** The next zone's key: the word at offset 16 is increased by two, wrapping at 32 bits. */
  function AdvanceKey(key: Key): (next: Key)
    ensures next[..16] == key[..16]
    ensures RolloverWord(next) == (RolloverWord(key) + 2) % 0x1_0000_0000
  {
    KeyFromParts(key[..16], (RolloverWord(key) + 2) % 0x1_0000_0000)
  }

  function KeyFromParts(head: seq<byte>, word: uint32): (key: Key)
    requires |head| == 16
    ensures key[..16] == head && RolloverWord(key) == word
  {
    var key := head + Le32(word);
    assert key[16..20] == Le32(word);
    ReadThroughSlice(key, 16, 20, 0);
    key
  }

  /** A key is its first sixteen bytes and its rollover word. */
  lemma KeyExtensionality(a: Key, b: Key)
    requires a[..16] == b[..16] && RolloverWord(a) == RolloverWord(b)
    ensures a == b
  {
    Le32OfRead(a, 16);
    Le32OfRead(b, 16);
    assert a == a[..16] + a[16..20] && b == b[..16] + b[16..20];
  }

  function AdvanceBy(key: Key, n: nat): (next: Key) {
    if n == 0 then key else AdvanceKey(AdvanceBy(key, n - 1))
  }

  lemma {:induction false} AdvanceByClosedForm(key: Key, n: nat)
    ensures AdvanceBy(key, n)[..16] == key[..16]
    ensures RolloverWord(AdvanceBy(key, n)) == (RolloverWord(key) + 2 * n) % 0x1_0000_0000
  {
    if n > 0 {
      AdvanceByClosedForm(key, n - 1);
      WordStep(RolloverWord(key), n - 1);
      var previous := AdvanceBy(key, n - 1);
      assert AdvanceBy(key, n) == AdvanceKey(previous);
    }
  }

  lemma WordStep(w: uint32, m: nat)
    ensures ((w + 2 * m) % 0x1_0000_0000 + 2) % 0x1_0000_0000 == (w + 2 * (m + 1)) % 0x1_0000_0000
  {
  }

  /** Rolling over n times gives the key back exactly when n is a multiple of 2^31: no
      shorter run of zone changes ever repeats a map key. */
  lemma RolloverPeriod(key: Key, n: nat)
    ensures AdvanceBy(key, n) == key <==> n % 0x8000_0000 == 0
  {
    AdvanceByClosedForm(key, n);
    WordReturns(RolloverWord(key), n);
    if RolloverWord(AdvanceBy(key, n)) == RolloverWord(key) {
      KeyExtensionality(AdvanceBy(key, n), key);
    }
  }

  lemma WordReturns(w: uint32, n: nat)
    ensures (w + 2 * n) % 0x1_0000_0000 == w <==> n % 0x8000_0000 == 0
  {
  }

  lemma {:induction false} AdvanceByAdds(key: Key, m: nat, n: nat)
    ensures AdvanceBy(AdvanceBy(key, m), n) == AdvanceBy(key, m + n)
  {
    if n > 0 {
      AdvanceByAdds(key, m, n - 1);
    }
  }

  /** The cipher block: the digest of the key, zeroed from its first zero byte onward. */
  function Derive(md5: seq<byte> -> Digest, key: Key): (block: Digest) {
    var live := UntilZero(md5(key));
    live + Zeros(16 - |live|)
  }

  /** A reading of that definition byte by byte. */
  lemma DerivedByte(md5: seq<byte> -> Digest, key: Key, i: nat)
    requires i < 16
    ensures Derive(md5, key)[i] ==
            if forall j :: 0 <= j <= i ==> md5(key)[j] != 0 then md5(key)[i] else 0
  {
    var digest := md5(key);
    var live := UntilZero(digest);
    if i < |live| {
      assert forall j :: 0 <= j <= i ==> digest[j] == live[j];
    } else {
      assert digest[|live|] == 0;
    }
  }

  method AdvanceMapSessionKey(key: array<byte>)
    requires key.Length == 20
    modifies key
    ensures key[..] == AdvanceKey(old(key[..]))
  {
    var rollover: int := ReadLe32(key[..], 16);
    WriteLe32(key, 16, (rollover + 2) % 0x1_0000_0000);
  }

  /** `up` says whether the MD5 provider answers this call. */
  method DeriveMapCipherKey(md5: seq<byte> -> Digest, up: bool, key: seq<byte>, block: array<byte>)
    returns (ok: bool)
    requires |key| == 20 && block.Length == 16
    modifies block
    ensures ok == up
    ensures block[..] == if ok then Derive(md5, key) else Zeros(16)
  {
    if !up {
      forall i | 0 <= i < 16 { block[i] := 0; }
      return false;
    }
    CopyInto(md5(key), block, 0);
    assert block[..] == md5(key);
    ZeroFromFirstZero(block);
    return true;
  }

  method ZeroFromFirstZero(block: array<byte>)
    modifies block
    ensures var live := UntilZero(old(block[..])); block[..] == live + Zeros(block.Length - |live|)
  {
    var firstZero := 0;
    while firstZero < block.Length && block[firstZero] != 0
      invariant 0 <= firstZero <= block.Length
      invariant forall i :: 0 <= i < firstZero ==> block[i] != 0
    {
      firstZero := firstZero + 1;
    }
    UntilZeroUnique(block[..], firstZero);
    forall i | firstZero <= i < block.Length { block[i] := 0; }
  }
}
