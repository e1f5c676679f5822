/** Framing of a decoded world datagram: after a 28-byte transport header, frames of a
    9-bit id and a 7-bit word count. */
module WorldDatagrams {
  import opened Bytes

  const TRANSPORT_HEADER_SIZE := 28
  const MAX_DATAGRAM := 10000
  const MAX_FRAMES := 64
  const ZONE_HANDOFF := 0x00B
  const LOGIN_RESPONSE := 0x00A

  datatype Frame = Frame(offset: nat, id: nat, size: nat) {
    predicate IsLoginResponse() {
      id == LOGIN_RESPONSE && size >= 32
    }
  }

  /** The greedy decomposition from `at`: frames as long as a whole, non-empty one follows. */
  function Decomposition(bytes: seq<byte>, at: nat): (fs: seq<Frame>)
    ensures forall i :: 0 <= i < |fs| ==>
      at <= fs[i].offset && 4 <= fs[i].size && fs[i].offset + fs[i].size <= |bytes|
    decreases |bytes| - at
  {
    if at + 4 > |bytes| then []
    else
      var header := ReadLe16(bytes, at);
      var size := 4 * (header / 0x200);
      if size == 0 || at + size > |bytes| then []
      else [Frame(at, header % 0x200, size)] + Decomposition(bytes, at + size)
  }

  /** The frames the walk visits: the first 64 of the decomposition. */
  function Visited(bytes: seq<byte>): (fs: seq<Frame>) {
    var all := Decomposition(bytes, TRANSPORT_HEADER_SIZE);
    if |all| <= MAX_FRAMES then all else all[..MAX_FRAMES]
  }

  /** The walk takes the size from the high byte alone: it clears the low bit (a mask
      with 0xFE) and doubles. That is four times the upper seven bits of the header. */
  method ReadFrameHeader(bytes: seq<byte>, at: nat) returns (id: nat, size: nat)
    requires at + 4 <= |bytes|
    ensures id == ReadLe16(bytes, at) % 0x200 && size == 4 * (ReadLe16(bytes, at) / 0x200)
    ensures size < 4 || at + size > |bytes| ==> Decomposition(bytes, at) == []
    ensures !(size < 4 || at + size > |bytes|) ==>
      Decomposition(bytes, at) == [Frame(at, id, size)] + Decomposition(bytes, at + size)
  {
    id := ReadLe16(bytes, at) % 0x200;
    var low: int, high: int := bytes[at], bytes[at + 1];
    size := 2 * (high - high % 2);
    assert (low + 0x100 * high) / 0x200 == high / 2;
  }

  /** A prefix of the decomposition that is all of it, or 64 frames long, is the visit. */
  lemma VisitIsComplete(bytes: seq<byte>, fs: seq<Frame>, rest: seq<Frame>)
    requires Decomposition(bytes, TRANSPORT_HEADER_SIZE) == fs + rest && |fs| <= MAX_FRAMES
    requires rest == [] || |fs| == MAX_FRAMES
    ensures fs == Visited(bytes)
  {
  }

  // ------------------------------------------------------------- serialising

  /** A frame to send: its id, its length in words and the bytes after the 2-byte header. */
  datatype Packet = Packet(id: nat, words: nat, body: seq<byte>) {
    predicate WellFormed() {
      id < 0x200 && 1 <= words <= 127 && |body| == 4 * words - 2
    }

    function Bytes(): (b: seq<byte>)
      requires WellFormed()
      ensures |b| == 4 * words && ReadLe16(b, 0) == id + 0x200 * words
    {
      Le16(id + 0x200 * words) + body
    }
  }

  ghost predicate AllWellFormed(ps: seq<Packet>) {
    forall i :: 0 <= i < |ps| ==> ps[i].WellFormed()
  }

  ghost function Serialised(ps: seq<Packet>): (b: seq<byte>)
    requires AllWellFormed(ps)
  {
    if ps == [] then [] else ps[0].Bytes() + Serialised(ps[1..])
  }

  ghost function FramesAt(ps: seq<Packet>, at: nat): (fs: seq<Frame>)
    ensures |fs| == |ps|
  {
    if ps == [] then []
    else [Frame(at, ps[0].id, 4 * ps[0].words)] + FramesAt(ps[1..], at + 4 * ps[0].words)
  }

  lemma {:induction false} DecompositionOfSerialised(head: seq<byte>, ps: seq<Packet>)
    requires AllWellFormed(ps)
    ensures Decomposition(head + Serialised(ps), |head|) == FramesAt(ps, |head|)
    decreases |ps|
  {
    hide Decomposition, Packet.Bytes;
    if ps == [] {
      NothingLeft(head);
      assert head + Serialised(ps) == head;
    } else {
      assert ps[0].WellFormed() && AllWellFormed(ps[1..]);
      OneMorePacket(head, ps[0], Serialised(ps[1..]));
      DecompositionOfSerialised(head + ps[0].Bytes(), ps[1..]);
    }
  }

  lemma NothingLeft(head: seq<byte>)
    ensures Decomposition(head, |head|) == []
  {
  }

  lemma OneMorePacket(head: seq<byte>, p: Packet, rest: seq<byte>)
    requires p.WellFormed()
    ensures Decomposition(head + (p.Bytes() + rest), |head|)
         == [Frame(|head|, p.id, 4 * p.words)] + Decomposition((head + p.Bytes()) + rest, |head| + 4 * p.words)
  {
    hide Decomposition;
    FirstFrame(head, p.Bytes(), rest, p.id, p.words);
    assert head + (p.Bytes() + rest) == (head + p.Bytes()) + rest;
  }

  lemma FirstFrame(head: seq<byte>, frame: seq<byte>, rest: seq<byte>, id: nat, words: nat)
    requires id < 0x200 && 1 <= words <= 127
    requires |frame| == 4 * words && ReadLe16(frame, 0) == id + 0x200 * words
    ensures var bytes, at := head + (frame + rest), |head|;
            Decomposition(bytes, at) == [Frame(at, id, 4 * words)] + Decomposition(bytes, at + 4 * words)
  {
    var bytes, at := head + (frame + rest), |head|;
    assert bytes[at] == frame[0] && bytes[at + 1] == frame[1];
    var header := ReadLe16(bytes, at);
    assert header == id + 0x200 * words;
    assert header % 0x200 == id && header / 0x200 == words;
  }

  lemma {:induction false} FramesAtKeepsIds(ps: seq<Packet>, at: nat, i: nat)
    requires i < |ps|
    ensures FramesAt(ps, at)[i].id == ps[i].id && FramesAt(ps, at)[i].size == 4 * ps[i].words
  {
    if i > 0 {
      FramesAtKeepsIds(ps[1..], at + 4 * ps[0].words, i - 1);
    }
  }

  /** Round trip: walking a serialised packet list visits exactly that list, in order, up
      to the 64-frame limit, each with the id and the size it was written with. */
  lemma WalkReturnsWhatWasSerialised(header: seq<byte>, ps: seq<Packet>)
    requires |header| == 28 && AllWellFormed(ps)
    ensures |ps| <= 64 ==> Visited(header + Serialised(ps)) == FramesAt(ps, 28)
    ensures |ps| > 64 ==>
      Visited(header + Serialised(ps)) == FramesAt(ps, 28)[..64]
    ensures var fs := Visited(header + Serialised(ps));
            && |fs| == (if |ps| <= 64 then |ps| else 64)
            && forall i :: 0 <= i < |fs| ==> fs[i].id == ps[i].id && fs[i].size == 4 * ps[i].words
  {
    DecompositionOfSerialised(header, ps);
    forall i: nat | i < |ps|
      ensures var f := FramesAt(ps, 28)[i]; f.id == ps[i].id && f.size == 4 * ps[i].words
    {
      FramesAtKeepsIds(ps, 28, i);
    }
  }

  /** The packet a frame is, with its bytes. */
  function PacketAt(bytes: seq<byte>, f: Frame): Packet
    requires f.size >= 4 && f.offset + f.size <= |bytes|
  {
    Packet(f.id, f.size / 4, bytes[f.offset + 2..f.offset + f.size])
  }

  function PacketsOf(bytes: seq<byte>, fs: seq<Frame>): seq<Packet>
    requires forall i :: 0 <= i < |fs| ==> fs[i].size >= 4 && fs[i].offset + fs[i].size <= |bytes|
  {
    if fs == [] then [] else [PacketAt(bytes, fs[0])] + PacketsOf(bytes, fs[1..])
  }

  lemma FirstPacket(bytes: seq<byte>, at: nat)
    requires at + 4 <= |bytes|
    ensures var header := ReadLe16(bytes, at);
            var size := 4 * (header / 0x200);
            size > 0 && at + size <= |bytes| ==>
              var p := PacketAt(bytes, Frame(at, header % 0x200, size));
              p.WellFormed() && p.Bytes() == bytes[at..at + size]
  {
    var header := ReadLe16(bytes, at);
    var size := 4 * (header / 0x200);
    if size > 0 && at + size <= |bytes| {
      assert header % 0x200 + 0x200 * (header / 0x200) == header;
      BytesOfHalf(bytes[at], bytes[at + 1]);
      assert bytes[at..at + size] == [bytes[at], bytes[at + 1]] + bytes[at + 2..at + size];
    }
  }

  /** The converse: whatever the datagram, the frames of its decomposition are well-formed
      packets, and serialising those gives back exactly the bytes the walk went over. */
  lemma {:induction false} FramesReserialise(bytes: seq<byte>, at: nat)
    requires at <= |bytes|
    ensures var ps := PacketsOf(bytes, Decomposition(bytes, at));
            && AllWellFormed(ps)
            && at + |Serialised(ps)| <= |bytes|
            && bytes[at..at + |Serialised(ps)|] == Serialised(ps)
    decreases |bytes| - at
  {
    hide PacketAt, Packet.Bytes, Packet.WellFormed, Serialised, AllWellFormed;
    var fs := Decomposition(bytes, at);
    if fs == [] {
      SerialisedNothing();
    } else {
      var size := fs[0].size;
      FirstPacket(bytes, at);
      FramesReserialise(bytes, at + size);
      assert fs[1..] == Decomposition(bytes, at + size);
      PacketInFront(bytes, at, PacketAt(bytes, fs[0]), PacketsOf(bytes, fs[1..]));
    }
  }

  lemma PacketInFront(bytes: seq<byte>, at: nat, p: Packet, rest: seq<Packet>)
    requires p.WellFormed() && AllWellFormed(rest)
    requires at + |p.Bytes()| + |Serialised(rest)| <= |bytes|
    requires p.Bytes() == bytes[at..at + |p.Bytes()|]
    requires var mid := at + |p.Bytes()|; bytes[mid..mid + |Serialised(rest)|] == Serialised(rest)
    ensures var ps := [p] + rest;
            && AllWellFormed(ps)
            && at + |Serialised(ps)| <= |bytes| && bytes[at..at + |Serialised(ps)|] == Serialised(ps)
  {
    var ps, mid := [p] + rest, at + |p.Bytes()|;
    assert ps[1..] == rest;
    SerialisedNext(ps);
    Adjacent(bytes, at, mid, mid + |Serialised(rest)|);
  }

  lemma SerialisedNothing()
    ensures AllWellFormed([]) && Serialised([]) == []
  {
  }

  lemma Adjacent(s: seq<byte>, i: nat, j: nat, k: nat)
    requires i <= j <= k <= |s|
    ensures s[i..j] + s[j..k] == s[i..k]
  {
  }

  lemma SerialisedNext(ps: seq<Packet>)
    requires ps != [] && ps[0].WellFormed() && AllWellFormed(ps[1..])
    ensures AllWellFormed(ps) && Serialised(ps) == ps[0].Bytes() + Serialised(ps[1..])
  {
    forall i | 0 <= i < |ps| ensures ps[i].WellFormed() {
      if i > 0 {
        assert ps[i] == ps[1..][i - 1];
      }
    }
  }
}
