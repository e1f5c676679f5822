/** The variable-length character list: its parser, an independent layout of such packets,
    and the two directions between them. */
module CharacterLists {
  import opened Bytes
  import opened LobbyPackets

  const MAX_CHARACTERS := 16

  function EntryOffset(i: nat): nat {
    32 + 140 * i
  }

  /** An entry as the parser reads it: id at +0, status at +8, name in the 16 bytes at +12. */
  function SummaryOf(entry: seq<byte>): CharacterSummary
    requires |entry| == CHARACTER_ENTRY_SIZE
  {
    CharacterSummary(ReadLe32(entry, 0), ReadLe16(entry, 8), UntilZero(entry[12..28]))
  }

  function EntryAt(bytes: seq<byte>, i: nat): CharacterSummary
    requires EntryOffset(i + 1) <= |bytes|
  {
    SummaryOf(bytes[EntryOffset(i)..EntryOffset(i + 1)])
  }

  function Entries(bytes: seq<byte>, count: nat): (r: seq<CharacterSummary>)
    requires EntryOffset(count) <= |bytes|
    ensures |r| == count
  {
    if count == 0 then [] else Entries(bytes, count - 1) + [EntryAt(bytes, count - 1)]
  }

  /** The verdict the parser reaches before it reads any entry; the errors are tried in
      the code's order. */
  function ListVerdict(md5: seq<byte> -> Digest, up: bool, bytes: seq<byte>): (r: Option<ParseError>)
    ensures r == None ==> |bytes| >= CHARACTER_LIST_HEADER_SIZE && ReadLe32(bytes, 28) <= MAX_CHARACTERS
                          && EntryOffset(ReadLe32(bytes, 28)) == ReadLe32(bytes, 0) <= |bytes|
  {
    var size := ValidateLobbyHeader(bytes, 0x20, CHARACTER_LIST_HEADER_SIZE);
    if size.Err? then Some(size.error)
    else
      var count := ReadLe32(bytes, 28);
      if count > MAX_CHARACTERS then Some(InvalidCharacterCount)
      else if size.value != EntryOffset(count) then Some(InvalidSize)
      else ValidateLobbyIdentifier(md5, up, bytes, size.value)
  }

  function ParsedCharacterList(md5: seq<byte> -> Digest, up: bool, bytes: seq<byte>):
    Result<seq<CharacterSummary>, ParseError>
  {
    var verdict := ListVerdict(md5, up, bytes);
    if verdict.Some? then Err(verdict.value) else Ok(Entries(bytes, ReadLe32(bytes, 28)))
  }

  /** Where the fields of entry `i` are. */
  lemma {:induction false} EntryFields(bytes: seq<byte>, count: nat, i: nat)
    requires i < count && 32 + 140 * count <= |bytes|
    ensures Entries(bytes, count)[i]
         == CharacterSummary(ReadLe32(bytes, 32 + 140 * i), ReadLe16(bytes, 40 + 140 * i),
                             UntilZero(bytes[44 + 140 * i..60 + 140 * i]))
  {
    hide SummaryOf;
    if i < count - 1 {
      EntryFields(bytes, count - 1, i);
    } else {
      SummaryFields(bytes, 32 + 140 * i);
    }
  }

  lemma SummaryFields(bytes: seq<byte>, from: nat)
    requires from + 140 <= |bytes|
    ensures SummaryOf(bytes[from..from + 140])
         == CharacterSummary(ReadLe32(bytes, from), ReadLe16(bytes, from + 8), UntilZero(bytes[from + 12..from + 28]))
  {
    ReadThroughSlice(bytes, from, from + 140, 0);
    ReadThroughSlice(bytes, from, from + 140, 8);
    SliceOfSlice(bytes, from, from + 140, 12, 28);
  }

  method ParseCharacterList(md5: seq<byte> -> Digest, up: bool, bytes: seq<byte>)
    returns (r: Result<seq<CharacterSummary>, ParseError>)
    ensures r == ParsedCharacterList(md5, up, bytes)
  {
    var size := ValidateLobbyHeader(bytes, 0x20, CHARACTER_LIST_HEADER_SIZE);
    if size.Err? {
      return Err(size.error);
    }
    var count := ReadLe32(bytes, 28);
    if count > MAX_CHARACTERS {
      return Err(InvalidCharacterCount);
    }
    if size.value != EntryOffset(count) {
      return Err(InvalidSize);
    }
    var identifier := ValidateLobbyIdentifier(md5, up, bytes, size.value);
    if identifier.Some? {
      return Err(identifier.value);
    }
    var characters := ReadEntries(bytes, count);
    return Ok(characters);
  }

  /** The entry loop, one push_back a turn. */
  method ReadEntries(bytes: seq<byte>, count: nat) returns (characters: seq<CharacterSummary>)
    requires EntryOffset(count) <= |bytes|
    ensures characters == Entries(bytes, count)
  {
    characters := [];
    for i := 0 to count
      invariant characters == Entries(bytes, i)
    {
      var summary := ReadEntry(bytes, EntryOffset(i));
      characters := characters + [summary];
    }
  }

  /** One entry: the name ends at the first zero of its 16 bytes. */
  method ReadEntry(bytes: seq<byte>, entry: nat) returns (summary: CharacterSummary)
    requires entry + CHARACTER_ENTRY_SIZE <= |bytes|
    ensures summary == SummaryOf(bytes[entry..entry + CHARACTER_ENTRY_SIZE])
  {
    var name := entry + 12;
    var nameEnd := name;
    while nameEnd < name + 16 && bytes[nameEnd] != 0
      invariant name <= nameEnd <= name + 16
      invariant forall k :: name <= k < nameEnd ==> bytes[k] != 0
    {
      nameEnd := nameEnd + 1;
    }
    summary := CharacterSummary(ReadLe32(bytes, entry), ReadLe16(bytes, entry + 8), bytes[name..nameEnd]);
    ghost var window := bytes[entry..entry + CHARACTER_ENTRY_SIZE];
    ReadThroughSlice(bytes, entry, entry + CHARACTER_ENTRY_SIZE, 0);
    ReadThroughSlice(bytes, entry, entry + CHARACTER_ENTRY_SIZE, 8);
    ghost var field := bytes[name..name + 16];
    SliceOfSlice(bytes, entry, entry + CHARACTER_ENTRY_SIZE, 12, 28);
    UntilZeroUnique(field, nameEnd - name);
    SliceOfSlice(bytes, name, name + 16, 0, nameEnd - name);
  }

  // ------------------------------------------------------------------ layout

  /** One laid-out entry. Everything the parser skips is an arbitrary filler. */
  datatype Entry = Entry(summary: CharacterSummary, gap4: seq<byte>, gap2: seq<byte>,
                         nameFill: seq<byte>, tail: seq<byte>)
  {
    predicate WellFormed() {
      && |gap4| == 4 && |gap2| == 2 && |tail| == 112
      && |summary.name| + |nameFill| == 16
      && (forall i :: 0 <= i < |summary.name| ==> summary.name[i] != 0)
      && (nameFill != [] ==> nameFill[0] == 0)
    }

    function Bytes(): (b: seq<byte>)
      requires WellFormed()
      ensures |b| == CHARACTER_ENTRY_SIZE
    {
      Le32(summary.contentId) + gap4 + Le16(summary.status) + gap2 + summary.name + nameFill + tail
    }
  }

  ghost predicate AllWellFormed(es: seq<Entry>) {
    forall i :: 0 <= i < |es| ==> es[i].WellFormed()
  }

  ghost function EntryBytes(es: seq<Entry>): (b: seq<byte>)
    requires AllWellFormed(es)
    ensures |b| == CHARACTER_ENTRY_SIZE * |es|
  {
    if es == [] then [] else EntryBytes(es[..|es| - 1]) + es[|es| - 1].Bytes()
  }

  ghost function Summaries(es: seq<Entry>): seq<CharacterSummary> {
    seq(|es|, i requires 0 <= i < |es| => es[i].summary)
  }

  /** A list packet before stamping, followed by whatever else the buffer holds. */
  ghost function ListPacket(es: seq<Entry>, rest: seq<byte>): (p: seq<byte>)
    requires AllWellFormed(es) && |es| <= MAX_CHARACTERS
    ensures |p| == EntryOffset(|es|) + |rest|
    ensures ReadLe32(p, 0) == EntryOffset(|es|)
  {
    var p := ThreeWords(EntryOffset(|es|), LOBBY_TERMINATOR, 0x20) + Zeros(16) + ListBody(es, rest);
    ThreeWordsReadBack(p, EntryOffset(|es|), LOBBY_TERMINATOR, 0x20);
    p
  }

  ghost function ThreeWords(a: uint32, b: uint32, c: uint32): (p: seq<byte>)
    ensures |p| == 12
  {
    Le32(a) + Le32(b) + Le32(c)
  }

  lemma ThreeWordsReadBack(p: seq<byte>, a: uint32, b: uint32, c: uint32)
    requires |p| >= 12 && p[..12] == ThreeWords(a, b, c)
    ensures ReadLe32(p, 0) == a && ReadLe32(p, 4) == b && ReadLe32(p, 8) == c
  {
    var w := p[..12];
    assert w[0..4] == Le32(a) && w[4..8] == Le32(b) && w[8..12] == Le32(c);
    ReadThroughSlice(w, 0, 4, 0);
    ReadThroughSlice(w, 4, 8, 0);
    ReadThroughSlice(w, 8, 12, 0);
    ReadThroughSlice(p, 0, 12, 0);
    ReadThroughSlice(p, 0, 12, 4);
    ReadThroughSlice(p, 0, 12, 8);
  }

  ghost function ListBody(es: seq<Entry>, rest: seq<byte>): (p: seq<byte>)
    requires AllWellFormed(es) && |es| <= MAX_CHARACTERS
    ensures |p| == 4 + 140 * |es| + |rest|
  {
    Le32(|es|) + EntryBytes(es) + rest
  }

  lemma EntryReadsBack(e: Entry)
    requires e.WellFormed()
    ensures SummaryOf(e.Bytes()) == e.summary
  {
    var b := e.Bytes();
    assert b[0..4] == Le32(e.summary.contentId);
    assert b[8..10] == Le16(e.summary.status);
    ReadThroughSlice(b, 0, 4, 0);
    ReadThroughSlice(b, 8, 10, 0);
    var field := e.summary.name + e.nameFill;
    assert b[12..28] == field;
    UntilZeroUnique(field, |e.summary.name|);
    assert field[..|e.summary.name|] == e.summary.name;
  }

  lemma {:induction false} EntriesReadBack(es: seq<Entry>, bytes: seq<byte>)
    requires AllWellFormed(es) && EntryOffset(|es|) <= |bytes|
    requires bytes[32..EntryOffset(|es|)] == EntryBytes(es)
    ensures Entries(bytes, |es|) == Summaries(es)
  {
    if es == [] {
      assert Summaries(es) == [];
    } else {
      hide Entry.Bytes, Entry.WellFormed, SummaryOf, Summaries;
      var n := |es| - 1;
      SplitTail(bytes, 32, 140 * n, EntryBytes(es[..n]), es[n].Bytes());
      EntriesReadBack(es[..n], bytes);
      EntryReadsBack(es[n]);
      SummariesNext(es);
    }
  }

  lemma SummariesNext(es: seq<Entry>)
    requires es != []
    ensures Summaries(es) == Summaries(es[..|es| - 1]) + [es[|es| - 1].summary]
  {
  }

  lemma SplitTail(s: seq<byte>, from: nat, n: nat, a: seq<byte>, b: seq<byte>)
    requires n == |a| && from + n + |b| <= |s| && s[from..from + n + |b|] == a + b
    ensures s[from..from + n] == a && s[from + n..from + n + |b|] == b
  {
    var w := s[from..from + n + |b|];
    assert w[..n] == s[from..from + n] && w[n..] == s[from + n..from + n + |b|];
  }

  lemma BodyReadsBack(count: uint32, entries: seq<byte>, rest: seq<byte>, p: seq<byte>)
    requires |p| >= 28 && p[28..] == Le32(count) + entries + rest
    ensures ReadLe32(p, 28) == count
    ensures p[32..32 + |entries|] == entries
  {
    MiddleOfThree(Le32(count), entries, rest);
    SliceOfTail(p, 28, 0, 4);
    SliceOfTail(p, 28, 4, 4 + |entries|);
    ReadThroughSlice(p, 28, 32, 0);
  }

  /** Round trip: parsing a stamped list packet, whatever the fillers and whatever follows
      it in the buffer, returns exactly the list. */
  lemma CharacterListRoundTrip(md5: seq<byte> -> Digest, es: seq<Entry>, rest: seq<byte>)
    requires AllWellFormed(es) && |es| <= MAX_CHARACTERS
    ensures ParsedCharacterList(md5, true, Stamp(md5, ListPacket(es, rest))) == Ok(Summaries(es))
  {
    var plain := ListPacket(es, rest);
    StampingIsAFixpoint(md5, plain, Zeros(16));
    var p := Stamp(md5, plain);
    assert p[..12] == plain[..12] == ThreeWords(EntryOffset(|es|), LOBBY_TERMINATOR, 0x20);
    ThreeWordsReadBack(p, EntryOffset(|es|), LOBBY_TERMINATOR, 0x20);
    assert p[28..] == plain[28..] == ListBody(es, rest);
    BodyReadsBack(|es|, EntryBytes(es), rest, p);
    EntriesReadBack(es, p);
  }

  /** The converse: exactly which buffers are accepted. */
  lemma AcceptedLists(md5: seq<byte> -> Digest, up: bool, bytes: seq<byte>)
    ensures ParsedCharacterList(md5, up, bytes).Ok? <==>
      && up
      && |bytes| >= 32
      && ReadLe32(bytes, 0) == 32 + 140 * ReadLe32(bytes, 28) <= |bytes|
      && ReadLe32(bytes, 4) == 0x46465849
      && ReadLe32(bytes, 8) == 0x20
      && ReadLe32(bytes, 28) <= 16
      && md5(HashInput(bytes, ReadLe32(bytes, 0))) == bytes[12..28]
  {
    if |bytes| >= CHARACTER_LIST_HEADER_SIZE && CHARACTER_LIST_HEADER_SIZE <= ReadLe32(bytes, 0) <= |bytes| {
      IdentifierVerdict(md5, up, bytes);
    }
  }

  /** The parser reads nothing beyond the declared size of a packet that has one: replacing
      everything after it cannot change the result. */
  lemma ParserStaysInsideDeclaredSize(md5: seq<byte> -> Digest, up: bool, bytes: seq<byte>, other: seq<byte>)
    requires |bytes| >= CHARACTER_LIST_HEADER_SIZE
    requires CHARACTER_LIST_HEADER_SIZE <= ReadLe32(bytes, 0) <= |bytes|
    ensures ParsedCharacterList(md5, up, bytes[..ReadLe32(bytes, 0)] + other)
         == ParsedCharacterList(md5, up, bytes)
  {
    var size := ReadLe32(bytes, 0);
    var p := bytes[..size] + other;
    assert forall i :: 0 <= i < size ==> p[i] == bytes[i];
    assert ReadLe32(p, 0) == size && ReadLe32(p, 28) == ReadLe32(bytes, 28);
    IdentifierVerdict(md5, up, bytes);
    IdentifierVerdict(md5, up, p);
    assert HashInput(p, size) == HashInput(bytes, size);
    assert p[12..28] == bytes[12..28];
    if ParsedCharacterList(md5, up, bytes).Ok? {
      SameEntries(bytes, p, ReadLe32(bytes, 28));
    }
  }

  lemma {:induction false} SameEntries(a: seq<byte>, b: seq<byte>, count: nat)
    requires EntryOffset(count) <= |a| && EntryOffset(count) <= |b|
    requires a[..EntryOffset(count)] == b[..EntryOffset(count)]
    ensures Entries(a, count) == Entries(b, count)
  {
    if count > 0 {
      var from, to := EntryOffset(count - 1), EntryOffset(count);
      assert a[from..to] == a[..to][from..] == b[..to][from..] == b[from..to];
      assert a[..from] == a[..to][..from] == b[..to][..from] == b[..from];
      SameEntries(a, b, count - 1);
    }
  }

  /** Which error is reported is fixed by the first failing test in this order; once the
      header and the count are right, only the checksum or its provider can fail. */
  lemma ErrorPrecedence(md5: seq<byte> -> Digest, up: bool, bytes: seq<byte>)
    ensures ParsedCharacterList(md5, up, bytes).Err? ==>
      ParsedCharacterList(md5, up, bytes).error ==
        if |bytes| < 32 then Truncated
        else if !(32 <= ReadLe32(bytes, 0) <= |bytes|) then InvalidSize
        else if ReadLe32(bytes, 4) != 0x46465849 then InvalidTerminator
        else if ReadLe32(bytes, 8) != 0x20 then UnexpectedCommand
        else if ReadLe32(bytes, 28) > 16 then InvalidCharacterCount
        else if ReadLe32(bytes, 0) != 32 + 140 * ReadLe32(bytes, 28) then InvalidSize
        else if !up then ChecksumUnavailable
        else InvalidIdentifier
  {
    if |bytes| >= 32 && 32 <= ReadLe32(bytes, 0) <= |bytes| {
      IdentifierVerdict(md5, up, bytes);
    }
  }

  // ------------------------------------------------------------ the converse

  /** Any 140 bytes are one laid-out entry. */
  function EntryOf(bytes: seq<byte>): (e: Entry)
    requires |bytes| == CHARACTER_ENTRY_SIZE
    ensures e.WellFormed() && e.Bytes() == bytes && e.summary == SummaryOf(bytes)
  {
    var name := UntilZero(bytes[12..28]);
    var e := Entry(SummaryOf(bytes), bytes[4..8], bytes[10..12], bytes[12 + |name|..28], bytes[28..]);
    EntryOfBytes(bytes, name);
    e
  }

  lemma EntryOfBytes(bytes: seq<byte>, name: seq<byte>)
    requires |bytes| == 140 && name == UntilZero(bytes[12..28])
    ensures var e := Entry(SummaryOf(bytes), bytes[4..8], bytes[10..12], bytes[12 + |name|..28], bytes[28..]);
            e.WellFormed() && e.Bytes() == bytes
  {
    hide UntilZero, Le32, Le16, ReadLe32, ReadLe16;
    Le32OfRead(bytes, 0);
    Le16OfRead(bytes, 8);
    assert name == bytes[12..12 + |name|];
    EntryPieces(bytes, 12 + |name|);
  }

  lemma Le16OfRead(s: seq<byte>, at: nat)
    requires at + 2 <= |s|
    ensures Le16(ReadLe16(s, at)) == s[at..at + 2]
  {
    BytesOfHalf(s[at], s[at + 1]);
  }

  lemma EntryPieces(s: seq<byte>, n: nat)
    requires |s| == 140 && 12 <= n <= 28
    ensures s[0..4] + s[4..8] + s[8..10] + s[10..12] + s[12..n] + s[n..28] + s[28..] == s
  {
    Joined(s, 4, 8);
    Joined(s, 8, 10);
    Joined(s, 10, 12);
    Joined(s, 12, n);
    Joined(s, n, 28);
    Joined(s, 28, 140);
  }

  lemma Joined(s: seq<byte>, i: nat, j: nat)
    requires i <= j <= |s|
    ensures s[0..i] + s[i..j] == s[0..j]
    ensures j == |s| ==> s[i..] == s[i..j] && s[0..j] == s
  {
  }

  function EntriesOf(bytes: seq<byte>, count: nat): (es: seq<Entry>)
    requires 32 + 140 * count <= |bytes|
    ensures |es| == count && AllWellFormed(es)
  {
    if count == 0 then []
    else EntriesOf(bytes, count - 1) + [EntryOf(bytes[32 + 140 * (count - 1)..32 + 140 * count])]
  }

  lemma {:induction false} EntriesOfBytes(bytes: seq<byte>, count: nat)
    requires 32 + 140 * count <= |bytes|
    ensures EntryBytes(EntriesOf(bytes, count)) == bytes[32..32 + 140 * count]
  {
    hide EntryOf, Entry.WellFormed, Entry.Bytes, SummaryOf;
    if count == 0 {
      assert EntriesOf(bytes, 0) == [];
    } else {
      var n := count - 1;
      EntriesOfBytes(bytes, n);
      var es := EntriesOf(bytes, count);
      assert es[..n] == EntriesOf(bytes, n);
      assert es[n].Bytes() == bytes[32 + 140 * n..32 + 140 * count];
      assert bytes[32..32 + 140 * n] + bytes[32 + 140 * n..32 + 140 * count] == bytes[32..32 + 140 * count];
    }
  }

  /** Whatever the parser accepts is a stamped list packet of laid-out entries with whatever
      follows, so nothing but such packets gets through. */
  lemma AcceptedListIsLaidOut(md5: seq<byte> -> Digest, bytes: seq<byte>) returns (es: seq<Entry>, rest: seq<byte>)
    requires ParsedCharacterList(md5, true, bytes).Ok?
    ensures AllWellFormed(es) && |es| <= 16 && bytes == Stamp(md5, ListPacket(es, rest))
  {
    AcceptedLists(md5, true, bytes);
    var count := ReadLe32(bytes, 28);
    var size := ReadLe32(bytes, 0);
    es, rest := EntriesOf(bytes, count), bytes[size..];
    LaidOut(bytes, es, rest);
    var plain := ListPacket(es, rest);
    assert plain == bytes[..12] + Zeros(16) + bytes[28..];
    StampOfZeroed(md5, bytes, plain);
  }

  lemma LaidOut(bytes: seq<byte>, es: seq<Entry>, rest: seq<byte>)
    requires |bytes| >= 32 && ReadLe32(bytes, 28) <= 16 && 32 + 140 * ReadLe32(bytes, 28) <= |bytes|
    requires ReadLe32(bytes, 0) == 32 + 140 * ReadLe32(bytes, 28)
    requires ReadLe32(bytes, 4) == LOBBY_TERMINATOR && ReadLe32(bytes, 8) == 0x20
    requires es == EntriesOf(bytes, ReadLe32(bytes, 28)) && rest == bytes[ReadLe32(bytes, 0)..]
    ensures ListPacket(es, rest) == bytes[..12] + Zeros(16) + bytes[28..]
  {
    hide EntriesOf, EntryBytes, ReadLe32, Le32;
    var size := ReadLe32(bytes, 0);
    LobbyPackets.ThreeWords(bytes, 0);
    assert bytes[..12] == bytes[0..12];
    AcceptedBody(bytes, size);
  }

  /** The packet from its count on. */
  lemma AcceptedBody(bytes: seq<byte>, size: nat)
    requires |bytes| >= 32 && ReadLe32(bytes, 28) <= MAX_CHARACTERS
    requires size == 32 + 140 * ReadLe32(bytes, 28) <= |bytes|
    ensures ListBody(EntriesOf(bytes, ReadLe32(bytes, 28)), bytes[size..]) == bytes[28..]
  {
    hide EntriesOf, EntryBytes, Le32;
    var count := ReadLe32(bytes, 28);
    Le32OfRead(bytes, 28);
    EntriesOfBytes(bytes, count);
    SplitAt(bytes, 28, 32, size);
  }

  lemma SplitAt(bytes: seq<byte>, i: nat, j: nat, k: nat)
    requires i <= j <= k <= |bytes|
    ensures bytes[i..j] + bytes[j..k] + bytes[k..] == bytes[i..]
  {
  }

  lemma StampOfZeroed(md5: seq<byte> -> Digest, bytes: seq<byte>, plain: seq<byte>)
    requires |bytes| >= 32 && 32 <= ReadLe32(bytes, 0) <= |bytes|
    requires plain == bytes[..12] + Zeros(16) + bytes[28..] && ReadLe32(plain, 0) == ReadLe32(bytes, 0)
    requires md5(HashInput(bytes, ReadLe32(bytes, 0))) == bytes[12..28]
    ensures Stamp(md5, plain) == bytes
  {
    var size := ReadLe32(bytes, 0);
    assert HashInput(plain, size) == HashInput(bytes, size);
    assert bytes == bytes[..12] + bytes[12..28] + bytes[28..];
  }
}
