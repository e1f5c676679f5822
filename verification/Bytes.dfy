/** Bytes, fixed-width unsigned integers and the little-endian codecs every packet uses. */
module Bytes {
  type byte = x: int | 0 <= x < 0x100
  type uint16 = x: int | 0 <= x < 0x1_0000
  type uint32 = x: int | 0 <= x < 0x1_0000_0000

  /** A 16-byte MD5 digest. MD5 itself is a parameter everywhere: a function from input to
      digest, and beside it a flag saying whether the provider answered that call. */
  type Digest = s: seq<byte> | |s| == 16 witness Zeros(16)

  datatype Option<+T> = None | Some(value: T)
  datatype Result<+T, +E> = Ok(value: T) | Err(error: E)

  function Zeros(n: nat): (z: seq<byte>)
    ensures |z| == n && forall i :: 0 <= i < n ==> z[i] == 0
  {
    seq(n, _ => 0)
  }

  function ReadLe16(s: seq<byte>, at: nat): uint16
    requires at + 2 <= |s|
  {
    var b0: int, b1: int := s[at], s[at + 1];
    b0 + 0x100 * b1
  }

  function ReadLe32(s: seq<byte>, at: nat): uint32
    requires at + 4 <= |s|
  {
    var b0: int, b1: int, b2: int, b3: int := s[at], s[at + 1], s[at + 2], s[at + 3];
    b0 + 0x100 * b1 + 0x1_0000 * b2 + 0x100_0000 * b3
  }

  function Le16(v: uint16): (s: seq<byte>)
    ensures |s| == 2 && ReadLe16(s, 0) == v
  {
    [v % 0x100, v / 0x100]
  }

  function Le32(v: uint32): (s: seq<byte>)
    ensures |s| == 4 && ReadLe32(s, 0) == v
  {
    Shifts(v);
    [v % 0x100, v / 0x100 % 0x100, v / 0x1_0000 % 0x100, v / 0x100_0000]
  }

  /** Dividing in steps of a byte; each quotient is a byte above the next. */
  lemma Shifts(v: uint32)
    ensures v / 0x100 == 0x100 * (v / 0x1_0000) + v / 0x100 % 0x100
    ensures v / 0x1_0000 == 0x100 * (v / 0x100_0000) + v / 0x1_0000 % 0x100
    ensures v / 0x100_0000 < 0x100
  {
    DivideTwice(v, 0x100);
    DivideTwice(v, 0x1_0000);
  }

  lemma DivideTwice(v: uint32, unit: nat)
    requires unit == 0x100 || unit == 0x1_0000
    ensures v / unit / 0x100 == v / (0x100 * unit)
  {
    if unit == 0x100 {
      assert v / 0x100 / 0x100 == v / 0x1_0000;
    } else {
      assert v / 0x1_0000 / 0x100 == v / 0x100_0000;
    }
  }

  function ReadBe32(s: seq<byte>, at: nat): uint32
    requires at + 4 <= |s|
  {
    var b0: int, b1: int, b2: int, b3: int := s[at], s[at + 1], s[at + 2], s[at + 3];
    0x100_0000 * b0 + 0x1_0000 * b1 + 0x100 * b2 + b3
  }

  /** The guest is big-endian. */
  function Be32(v: uint32): (s: seq<byte>)
    ensures |s| == 4 && ReadBe32(s, 0) == v
  {
    [Le32(v)[3], Le32(v)[2], Le32(v)[1], Le32(v)[0]]
  }

  /** Decoding four bytes loses nothing: `Le32` is the inverse of `ReadLe32`. */
  lemma Le32OfRead(s: seq<byte>, at: nat)
    requires at + 4 <= |s|
    ensures Le32(ReadLe32(s, at)) == s[at..at + 4]
  {
    var b0: int, b1: int, b2: int, b3: int := s[at], s[at + 1], s[at + 2], s[at + 3];
    BytesOfWord(b0, b1, b2, b3);
  }

  /** The bytes of a half and of a word, low byte first. */
  lemma BytesOfHalf(b0: byte, b1: byte)
    ensures Le16(b0 + 0x100 * b1) == [b0, b1] && ReadLe16([b0, b1], 0) == b0 + 0x100 * b1
  {
  }

  lemma BytesOfWord(b0: byte, b1: byte, b2: byte, b3: byte)
    ensures Le32(b0 + 0x100 * b1 + 0x1_0000 * b2 + 0x100_0000 * b3) == [b0, b1, b2, b3]
    ensures ReadLe32([b0, b1, b2, b3], 0) == b0 + 0x100 * b1 + 0x1_0000 * b2 + 0x100_0000 * b3
    ensures Be32(b0 + 0x100 * b1 + 0x1_0000 * b2 + 0x100_0000 * b3) == [b3, b2, b1, b0]
  {
    var v := b0 + 0x100 * b1 + 0x1_0000 * b2 + 0x100_0000 * b3;
    assert v / 0x100_0000 == b3;
    assert v / 0x1_0000 == b2 + 0x100 * b3;
    assert v / 0x100 == b1 + 0x100 * b2 + 0x1_0000 * b3;
  }

  /** Reading through a window is reading at the shifted offset. */
  lemma ReadBeThroughSlice(s: seq<byte>, lo: nat, hi: nat, at: nat)
    requires lo <= hi <= |s| && lo + at + 4 <= hi
    ensures ReadBe32(s[lo..hi], at) == ReadBe32(s, lo + at)
  {
  }

  lemma ReadThroughSlice(s: seq<byte>, lo: nat, hi: nat, at: nat)
    requires lo <= hi <= |s|
    ensures lo + at + 4 <= hi ==> ReadLe32(s[lo..hi], at) == ReadLe32(s, lo + at)
    ensures lo + at + 2 <= hi ==> ReadLe16(s[lo..hi], at) == ReadLe16(s, lo + at)
  {
  }

  lemma SliceOfTail(s: seq<byte>, from: nat, lo: nat, hi: nat)
    requires lo <= hi && from + hi <= |s|
    ensures s[from..][lo..hi] == s[from + lo..from + hi]
  {
  }

  lemma SliceOfSlice(s: seq<byte>, from: nat, to: nat, lo: nat, hi: nat)
    requires lo <= hi && from + hi <= to <= |s|
    ensures s[from..to][lo..hi] == s[from + lo..from + hi]
  {
    var w := s[from..to];
    forall i | lo <= i < hi ensures w[i] == s[from + i] {}
  }

  lemma MiddleOfThree(a: seq<byte>, b: seq<byte>, c: seq<byte>)
    ensures (a + b + c)[..|a|] == a
    ensures (a + b + c)[|a|..|a| + |b|] == b
  {
  }

  method WriteLe32(a: array<byte>, at: nat, value: uint32)
    requires at + 4 <= a.Length
    modifies a
    ensures a[..] == old(a[..at]) + Le32(value) + old(a[at + 4..])
  {
    a[at] := value % 0x100;
    a[at + 1] := value / 0x100 % 0x100;
    a[at + 2] := value / 0x1_0000 % 0x100;
    a[at + 3] := value / 0x100_0000;
  }

  /** `std::copy` of `source` into `a` at `at`. */
  method CopyInto(source: seq<byte>, a: array<byte>, at: nat)
    requires at + |source| <= a.Length
    modifies a
    ensures a[..] == old(a[..at]) + source + old(a[at + |source|..])
  {
    forall i | 0 <= i < |source| {
      a[at + i] := source[i];
    }
  }

  /** The bytes before the first zero (`std::find` of zero, then the range before it). */
  function UntilZero(s: seq<byte>): (r: seq<byte>)
    ensures |r| <= |s| && r == s[..|r|]
    ensures forall i :: 0 <= i < |r| ==> r[i] != 0
    ensures |r| < |s| ==> s[|r|] == 0
  {
    if s == [] || s[0] == 0 then [] else [s[0]] + UntilZero(s[1..])
  }

  /** Those three facts determine the prefix. */
  lemma UntilZeroUnique(s: seq<byte>, n: nat)
    requires n <= |s| && forall i :: 0 <= i < n ==> s[i] != 0
    requires n < |s| ==> s[n] == 0
    ensures UntilZero(s) == s[..n]
  {
    if n > 0 {
      UntilZeroUnique(s[1..], n - 1);
    }
  }
}
