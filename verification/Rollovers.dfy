/** Which packets of a world datagram roll the map key over, read off the packets' ids and
    sizes: 0x00B hands the player to another zone, 0x00A of at least 32 bytes answers the
    login there. */
module Rollovers {
  import opened Bytes
  import opened LobbyPackets
  import opened MapKeys
  import opened WorldDatagrams
  import opened DirectMapKeys
  import opened KeyAgreement

  /** Frame `i` rolls the key: a handoff whose key could be derived, with a full-size login
      response after every earlier such handoff. */
  predicate RollsAt(ups: nat -> bool, fs: seq<Frame>, i: nat)
    requires i < |fs|
  {
    fs[i].id == 0x00B && ups(i)
    && forall j: nat | j < i && fs[j].id == 0x00B && ups(j) ::
         exists k: nat :: j < k < i && fs[k].id == 0x00A && fs[k].size >= 32
  }

  function Rolls(ups: nat -> bool, fs: seq<Frame>): set<nat> {
    set i: nat | i < |fs| && RollsAt(ups, fs, i)
  }

  /** A handoff is still unanswered. */
  predicate Unanswered(ups: nat -> bool, fs: seq<Frame>) {
    exists j: nat :: j < |fs| && fs[j].id == 0x00B && ups(j)
      && forall k: nat :: j < k < |fs| ==> !(fs[k].id == 0x00A && fs[k].size >= 32)
  }

  lemma RollsIffAnswered(ups: nat -> bool, fs: seq<Frame>)
    requires fs != []
    ensures var n := |fs| - 1;
            RollsAt(ups, fs, n) <==> fs[n].id == 0x00B && ups(n) && !Unanswered(ups, fs[..n])
  {
    var n := |fs| - 1;
    var before := fs[..n];
    if fs[n].id == 0x00B && ups(n) {
      if Unanswered(ups, before) {
        var j: nat :| j < n && before[j].id == 0x00B && ups(j)
          && forall k: nat :: j < k < n ==> !(before[k].id == 0x00A && before[k].size >= 32);
        assert fs[j] == before[j];
        forall k: nat | j < k < n ensures !(fs[k].id == 0x00A && fs[k].size >= 32) {
          assert fs[k] == before[k];
        }
        assert !RollsAt(ups, fs, n);
      } else {
        forall j: nat | j < n && fs[j].id == 0x00B && ups(j)
          ensures exists k: nat :: j < k < n && fs[k].id == 0x00A && fs[k].size >= 32
        {
          assert before[j] == fs[j];
          var k: nat :| j < k < n && before[k].id == 0x00A && before[k].size >= 32;
          assert fs[k] == before[k];
        }
      }
    }
  }

  lemma UnansweredNext(ups: nat -> bool, fs: seq<Frame>)
    requires fs != []
    ensures var n := |fs| - 1;
            Unanswered(ups, fs) <==>
            (fs[n].id == 0x00B && ups(n))
            || (Unanswered(ups, fs[..n]) && !(fs[n].id == 0x00A && fs[n].size >= 32))
  {
    var n := |fs| - 1;
    var before := fs[..n];
    if Unanswered(ups, fs) && !(fs[n].id == 0x00B && ups(n)) {
      var j: nat :| j < |fs| && fs[j].id == 0x00B && ups(j)
        && forall k: nat :: j < k < |fs| ==> !(fs[k].id == 0x00A && fs[k].size >= 32);
      assert before[j] == fs[j];
      forall k: nat | j < k < n ensures !(before[k].id == 0x00A && before[k].size >= 32) {
        assert before[k] == fs[k];
      }
    }
    if Unanswered(ups, before) && !(fs[n].id == 0x00A && fs[n].size >= 32) {
      var j: nat :| j < n && before[j].id == 0x00B && ups(j)
        && forall k: nat :: j < k < n ==> !(before[k].id == 0x00A && before[k].size >= 32);
      assert fs[j] == before[j];
      forall k: nat | j < k < |fs| ensures !(fs[k].id == 0x00A && fs[k].size >= 32) {
        if k < n {
          assert fs[k] == before[k];
        }
      }
    }
  }

  lemma RollsOfPrefix(ups: nat -> bool, fs: seq<Frame>, n: nat, i: nat)
    requires i < n <= |fs|
    ensures RollsAt(ups, fs, i) == RollsAt(ups, fs[..n], i)
  {
    assert forall k: nat :: k < n ==> fs[..n][k] == fs[k];
    var before := fs[..n];
    if RollsAt(ups, before, i) {
      forall j: nat | j < i && fs[j].id == 0x00B && ups(j)
        ensures exists k: nat :: j < k < i && fs[k].id == 0x00A && fs[k].size >= 32
      {
        assert before[j] == fs[j];
        var k: nat :| j < k < i && before[k].id == 0x00A && before[k].size >= 32;
        assert fs[k] == before[k];
      }
    }
    if RollsAt(ups, fs, i) {
      forall j: nat | j < i && before[j].id == 0x00B && ups(j)
        ensures exists k: nat :: j < k < i && before[k].id == 0x00A && before[k].size >= 32
      {
        assert before[j] == fs[j];
        var k: nat :| j < k < i && fs[k].id == 0x00A && fs[k].size >= 32;
        assert fs[k] == before[k];
      }
    }
  }

  lemma RollsNext(ups: nat -> bool, fs: seq<Frame>)
    requires fs != []
    ensures var n := |fs| - 1;
            |Rolls(ups, fs)| == |Rolls(ups, fs[..n])| + if RollsAt(ups, fs, n) then 1 else 0
  {
    hide RollsAt;
    var n := |fs| - 1;
    forall i: nat | i < n ensures RollsAt(ups, fs, i) == RollsAt(ups, fs[..n], i) {
      RollsOfPrefix(ups, fs, n, i);
    }
    if RollsAt(ups, fs, n) {
      assert Rolls(ups, fs) == Rolls(ups, fs[..n]) + {n};
    } else {
      assert Rolls(ups, fs) == Rolls(ups, fs[..n]);
    }
  }

  /** The closed form of the rollover gate. */
  lemma {:induction false} GateClosedForm(ups: nat -> bool, fs: seq<Frame>)
    ensures var g := GateFrames(ups, Gate(0, false), fs);
            g.rollovers == |Rolls(ups, fs)| && g.pending == Unanswered(ups, fs)
  {
    if fs != [] {
      var n := |fs| - 1;
      GateClosedForm(ups, fs[..n]);
      RollsIffAnswered(ups, fs);
      UnansweredNext(ups, fs);
      RollsNext(ups, fs);
      hide Rolls, RollsAt, Unanswered;
    }
  }

  // ---------------------------------------------------------------- packets

  /** Packet `i` rolls the key, in words: 8 words are 32 bytes. */
  predicate PacketRolls(ups: nat -> bool, ps: seq<Packet>, i: nat)
    requires i < |ps|
  {
    ps[i].id == 0x00B && ups(i)
    && forall j: nat | j < i && ps[j].id == 0x00B && ups(j) ::
         exists k: nat :: j < k < i && ps[k].id == 0x00A && ps[k].words >= 8
  }

  lemma PacketsAreFrames(ups: nat -> bool, ps: seq<Packet>, fs: seq<Frame>, i: nat)
    requires |fs| == |ps| && i < |ps|
    requires forall k :: 0 <= k < |ps| ==> fs[k].id == ps[k].id && fs[k].size == 4 * ps[k].words
    ensures RollsAt(ups, fs, i) == PacketRolls(ups, ps, i)
  {
    if RollsAt(ups, fs, i) {
      forall j: nat | j < i && ps[j].id == 0x00B && ups(j)
        ensures exists k: nat :: j < k < i && ps[k].id == 0x00A && ps[k].words >= 8
      {
        var k: nat :| j < k < i && fs[k].id == 0x00A && fs[k].size >= 32;
        assert ps[k].words >= 8;
      }
    }
    if PacketRolls(ups, ps, i) {
      forall j: nat | j < i && fs[j].id == 0x00B && ups(j)
        ensures exists k: nat :: j < k < i && fs[k].id == 0x00A && fs[k].size >= 32
      {
        var k: nat :| j < k < i && ps[k].id == 0x00A && ps[k].words >= 8;
        assert fs[k].size >= 32;
      }
    }
  }

  function PacketRollovers(ups: nat -> bool, ps: seq<Packet>): set<nat> {
    set i: nat | i < |ps| && PacketRolls(ups, ps, i)
  }

  lemma PacketRolloversAreRolls(ups: nat -> bool, ps: seq<Packet>, fs: seq<Frame>)
    requires |fs| == |ps|
    requires forall k :: 0 <= k < |ps| ==> fs[k].id == ps[k].id && fs[k].size == 4 * ps[k].words
    ensures Rolls(ups, fs) == PacketRollovers(ups, ps)
  {
    hide RollsAt, PacketRolls;
    forall i: nat | i < |ps| ensures RollsAt(ups, fs, i) == PacketRolls(ups, ps, i) {
      PacketsAreFrames(ups, ps, fs, i);
    }
  }

  /** The key after a datagram of up to 64 packets, through the hook itself: the configured
      key, advanced once for each 0x00B packet whose derivation was answered and that has a
      0x00A packet of at least 8 words between it and every earlier such packet. */
  lemma DatagramRollsTheKey(md5: seq<byte> -> Digest, key: Key, ups: nat -> bool, trace: bool, header: seq<byte>,
                            ps: seq<Packet>)
    requires |header| == 28 && AllWellFormed(ps) && |ps| <= 64 && |header + Serialised(ps)| <= 10000
    ensures var bytes := header + Serialised(ps);
            var s := OnDecodeResult(md5, ups, trace, Configured(md5, key), |bytes|, bytes);
            var n := |PacketRollovers(ups, ps)|;
            s.session == AdvanceBy(key, n) && s.cipher == Derive(md5, AdvanceBy(key, n)) && s.enabled
  {
    var bytes := header + Serialised(ps);
    var fs := Visited(bytes);
    WalkReturnsWhatWasSerialised(header, ps);
    StartAgrees(md5, key);
    FramesAgree(md5, key, ups, Gate(0, false), Configured(md5, key), fs);
    GateClosedForm(ups, fs);
    PacketRolloversAreRolls(ups, ps, fs);
    hide Rolls, PacketRollovers, Visited, GateFrames, OnFrames, AdvanceBy, Derive, Serialised, Unanswered;
  }

  lemma TwoHandoffsRoll(ups: nat -> bool, a: Packet, b: Packet, c: Packet)
    requires a.id == 0x00B && b.id == 0x00A && c.id == 0x00B && ups(0) && ups(1) && ups(2)
    ensures PacketRollovers(ups, [a, b, c]) == if b.words >= 8 then {0, 2} else {0}
  {
    var ps := [a, b, c];
    assert ps[0] == a && ps[1] == b && ps[2] == c;
    assert PacketRolls(ups, ps, 0) && !PacketRolls(ups, ps, 1);
    if b.words >= 8 {
      assert ps[1].id == 0x00A && ps[1].words >= 8;
      assert PacketRolls(ups, ps, 2);
    } else {
      assert ps[0].id == 0x00B && ups(0);
      assert !PacketRolls(ups, ps, 2);
    }
    hide PacketRolls;
  }

  /** Handoff, login response, handoff: two rollovers if the response is full-size, one if
      it is not. */
  lemma TwoHandoffs(md5: seq<byte> -> Digest, key: Key, trace: bool, header: seq<byte>, a: Packet, b: Packet, c: Packet)
    requires |header| == 28 && AllWellFormed([a, b, c]) && a.id == 0x00B && b.id == 0x00A && c.id == 0x00B
    requires |header + Serialised([a, b, c])| <= 10000
    ensures var bytes := header + Serialised([a, b, c]);
            OnDecodeResult(md5, _ => true, trace, Configured(md5, key), |bytes|, bytes).session
            == AdvanceBy(key, if b.words >= 8 then 2 else 1)
  {
    hide *;
    DatagramRollsTheKey(md5, key, _ => true, trace, header, [a, b, c]);
    TwoHandoffsRoll(_ => true, a, b, c);
  }

  /** Results outside 1..10000 are not walked. */
  lemma OtherResultsDoNothing(md5: seq<byte> -> Digest, ups: nat -> bool, trace: bool, s: KeyState, result: int,
                              bytes: seq<byte>)
    requires result < 1 || result > 10000
    ensures OnDecodeResult(md5, ups, trace, s, result, bytes) == s
  {
  }

  lemma {:induction false} DisabledFramesKeepTheKey(md5: seq<byte> -> Digest, ups: nat -> bool, s: KeyState, fs: seq<Frame>)
    ensures var r := OnFrames(md5, ups, false, s, fs);
            r.session == s.session && r.cipher == s.cipher && r.enabled == s.enabled
  {
    if fs != [] {
      DisabledFramesKeepTheKey(md5, ups, s, fs[..|fs| - 1]);
    }
  }

  /** Without an enabled key no datagram moves it, traced or not; and untraced, nothing at
      all changes. */
  lemma DisabledKeysStay(md5: seq<byte> -> Digest, ups: nat -> bool, trace: bool, s: KeyState, result: int, bytes: seq<byte>)
    requires !s.enabled
    ensures var r := OnDecodeResult(md5, ups, trace, s, result, bytes);
            r.session == s.session && r.cipher == s.cipher && !r.enabled && (!trace ==> r == s)
  {
    DisabledFramesKeepTheKey(md5, ups, s, Visited(bytes));
  }
}
