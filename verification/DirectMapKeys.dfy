/** The direct-mode map key of the runtime hooks: the globals as one object, each entry
    point as a method, and the datagram walk that drives the rollover. These are the
    entry points run one after the other; `MapKeyInterleavings` runs them concurrently. */
module DirectMapKeys {
  import opened Bytes
  import opened LobbyPackets
  import opened MapKeys
  import opened WorldDatagrams

  /** The value of the globals. */
  datatype KeyState = KeyState(session: Key, cipher: Digest, enabled: bool, reported: bool, pending: bool)

  function Configured(md5: seq<byte> -> Digest, key: Key): KeyState {
    KeyState(key, Derive(md5, key), true, false, false)
  }

  function Cleared(): KeyState {
    KeyState(Zeros(20), Zeros(16), false, false, false)
  }

  predicate Rolls(s: KeyState, up: bool) {
    s.enabled && !s.pending && up
  }

  function Advanced(md5: seq<byte> -> Digest, up: bool, s: KeyState): KeyState {
    if !Rolls(s, up) then s
    else
      var next := AdvanceKey(s.session);
      KeyState(next, Derive(md5, next), true, false, true)
  }

  /** What one datagram frame does. `direct` is the enabled flag as loaded once, before
      the walk; `up` the provider's answer should this frame derive a key. */
  function OnFrame(md5: seq<byte> -> Digest, up: bool, direct: bool, s: KeyState, f: Frame): KeyState {
    var rolled := if f.id == ZONE_HANDOFF && direct then Advanced(md5, up, s) else s;
    if f.IsLoginResponse() then rolled.(pending := false) else rolled
  }

  /** Folding frames from the left; `ups(i)` answers the derivation of frame `i`. */
  function OnFrames(md5: seq<byte> -> Digest, ups: nat -> bool, direct: bool, s: KeyState, fs: seq<Frame>): KeyState {
    if fs == [] then s
    else
      var n := |fs| - 1;
      OnFrame(md5, ups(n), direct, OnFrames(md5, ups, direct, s, fs[..n]), fs[n])
  }

  lemma OneMoreFrame(md5: seq<byte> -> Digest, ups: nat -> bool, direct: bool, s: KeyState, fs: seq<Frame>, f: Frame)
    ensures OnFrames(md5, ups, direct, s, fs + [f])
         == OnFrame(md5, ups(|fs|), direct, OnFrames(md5, ups, direct, s, fs), f)
  {
    assert (fs + [f])[..|fs|] == fs;
  }

  lemma Regroup(fs: seq<Frame>, f: Frame, rest: seq<Frame>)
    ensures fs + ([f] + rest) == (fs + [f]) + rest
  {
  }

  /** A whole decode result: gated on the result's range and on the key being enabled or
      tracing being on. */
  function OnDecodeResult(md5: seq<byte> -> Digest, ups: nat -> bool, trace: bool, s: KeyState,
                          result: int, plaintext: seq<byte>): KeyState
  {
    if (!trace && !s.enabled) || result <= 0 || result > MAX_DATAGRAM then s
    else OnFrames(md5, ups, s.enabled, s, Visited(plaintext))
  }

  class DirectMapKey {
    const session: array<byte>
    const cipher: array<byte>
    var enabled: bool
    var reported: bool
    var pending: bool

    ghost predicate Valid() {
      session.Length == 20 && cipher.Length == 16 && session != cipher
    }

    ghost function View(): KeyState
      requires Valid()
      reads this, session, cipher
    {
      KeyState(session[..], cipher[..], enabled, reported, pending)
    }

    constructor ()
      ensures Valid() && fresh(session) && fresh(cipher) && View() == Cleared()
    {
      session := new byte[20](_ => 0);
      cipher := new byte[16](_ => 0);
      enabled, reported, pending := false, false, false;
    }

    /** `key` is None for a null pointer. */
    method Configure(md5: seq<byte> -> Digest, up: bool, key: Option<seq<byte>>) returns (ok: bool)
      requires Valid()
      modifies this, session, cipher
      ensures ok == (key.Some? && |key.value| == 20 && up)
      ensures ok ==> session[..] == key.value && cipher[..] == Derive(md5, key.value) && enabled && !pending && !reported
      ensures View() == if ok then Configured(md5, key.value) else old(View())
    {
      if key.None? || |key.value| != session.Length {
        return false;
      }
      var cipherKey := new byte[16];
      var derived := DeriveMapCipherKey(md5, up, key.value, cipherKey);
      if !derived {
        return false;
      }
      enabled := false;
      Store(key.value, cipherKey[..]);
      reported := false;
      pending := false;
      enabled := true;
      return true;
    }

    method Clear()
      requires Valid()
      modifies this, session, cipher
      ensures View() == Cleared()
      ensures session[..] == Zeros(20) && cipher[..] == Zeros(16) && !enabled && !pending && !reported
    {
      enabled := false;
      forall i | 0 <= i < session.Length { session[i] := 0; }
      forall i | 0 <= i < cipher.Length { cipher[i] := 0; }
      reported := false;
      pending := false;
    }

    /** False when the key is disabled or the derivation failed; the state then stays. */
    method Advance(md5: seq<byte> -> Digest, up: bool) returns (ok: bool, advanced: bool)
      requires Valid()
      modifies this, session, cipher
      ensures ok == old(enabled && (pending || up))
      ensures advanced == old(enabled && !pending && up)
      ensures advanced ==> session[..] == AdvanceKey(old(session[..])) && cipher[..] == Derive(md5, session[..])
                           && enabled && pending && !reported
      ensures !advanced ==> View() == old(View())
      ensures View() == Advanced(md5, up, old(View()))
    {
      if !enabled {
        return false, false;
      }
      if pending {
        return true, false;
      }
      var nextSession := NextSession();
      var nextCipher := new byte[16];
      var derived := DeriveMapCipherKey(md5, up, nextSession, nextCipher);
      if !derived {
        return false, false;
      }
      Store(nextSession, nextCipher[..]);
      reported := false;
      pending := true;
      return true, true;
    }

    method NextSession() returns (next: Key)
      requires Valid()
      ensures next == AdvanceKey(session[..])
    {
      var copy := new byte[20];
      CopyInto(session[..], copy, 0);
      assert copy[..] == session[..];
      AdvanceMapSessionKey(copy);
      return copy[..];
    }

    method Store(nextSession: Key, nextCipher: Digest)
      requires Valid()
      modifies session, cipher
      ensures session[..] == nextSession && cipher[..] == nextCipher
    {
      CopyInto(nextSession, session, 0);
      CopyInto(nextCipher, cipher, 0);
    }

    /** Copies the cipher block into guest memory at a nonzero destination. */
    method Apply(memory: array<byte>, destination: nat)
      requires Valid() && memory != cipher && memory != session
      requires destination + 16 <= memory.Length
      modifies this`reported, memory
      ensures var applies := old(enabled) && destination != 0;
              && memory[..] == (if applies then old(memory[..destination]) + cipher[..] + old(memory[destination + 16..])
                                else old(memory[..]))
              && View() == (if applies then old(View()).(reported := true) else old(View()))
    {
      if !enabled {
        return;
      }
      if destination == 0 {
        return;
      }
      CopyInto(cipher[..], memory, destination);
      reported := true;
    }

    /** The walk over a decoded datagram. `plaintext` is the decoded datagram itself, so
        the verifier's index checks keep every read inside it. */
    method ReceiveDecodeResult(md5: seq<byte> -> Digest, ups: nat -> bool, trace: bool,
                               result: int, plaintext: seq<byte>)
      returns (frames: seq<Frame>)
      requires Valid()
      requires 0 < result <= MAX_DATAGRAM ==> |plaintext| == result
      modifies this, session, cipher
      ensures View() == OnDecodeResult(md5, ups, trace, old(View()), result, plaintext)
      ensures frames == if (trace || old(enabled)) && 0 < result <= MAX_DATAGRAM then Visited(plaintext) else []
    {
      var direct := enabled;
      if !trace && !direct {
        return [];
      }
      if result <= 0 || result > MAX_DATAGRAM {
        return [];
      }
      frames := Walk(md5, ups, direct, plaintext);
    }

    method Walk(md5: seq<byte> -> Digest, ups: nat -> bool, direct: bool, plaintext: seq<byte>)
      returns (frames: seq<Frame>)
      requires Valid()
      modifies this, session, cipher
      ensures frames == Visited(plaintext)
      ensures View() == OnFrames(md5, ups, direct, old(View()), frames)
    {
      frames := [];
      var offset := TRANSPORT_HEADER_SIZE;
      while offset + 4 <= |plaintext| && |frames| < MAX_FRAMES
        invariant TRANSPORT_HEADER_SIZE <= offset
        invariant |frames| <= MAX_FRAMES
        invariant Decomposition(plaintext, TRANSPORT_HEADER_SIZE) == frames + Decomposition(plaintext, offset)
        invariant View() == OnFrames(md5, ups, direct, old(View()), frames)
        decreases |plaintext| - offset
      {
        var id, size := ReadFrameHeader(plaintext, offset);
        if size < 4 || offset + size > |plaintext| {
          break;
        }
        var frame := Frame(offset, id, size);
        HandleFrame(md5, ups(|frames|), direct, frame);
        OneMoreFrame(md5, ups, direct, old(View()), frames, frame);
        Regroup(frames, frame, Decomposition(plaintext, offset + size));
        frames := frames + [frame];
        offset := offset + size;
      }
      VisitIsComplete(plaintext, frames, Decomposition(plaintext, offset));
    }

    /** The two event branches of the loop body. */
    method HandleFrame(md5: seq<byte> -> Digest, up: bool, direct: bool, f: Frame)
      requires Valid()
      modifies this, session, cipher
      ensures View() == OnFrame(md5, up, direct, old(View()), f)
    {
      if f.id == ZONE_HANDOFF && direct {
        var ok, advanced := Advance(md5, up);
      }
      if f.id == LOGIN_RESPONSE && f.size >= 32 {
        pending := false;
      }
    }
  }
}
