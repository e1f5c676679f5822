/** End to end: the key on the lobby wire and the cipher installed in the guest, after any
    history of world datagrams. */
module KeyAgreement {
  import opened Bytes
  import opened LobbyPackets
  import opened MapKeys
  import opened WorldDatagrams
  import opened DirectMapKeys
  import LobbyBridge
  import LobbyClient
  import MapKeyInterleavings

  /** The rollover gate alone, without any key: how many handoffs got through, and whether
      one is still pending. */
  datatype Gate = Gate(rollovers: nat, pending: bool)

  function GateFrame(up: bool, g: Gate, f: Frame): Gate {
    if f.id == ZONE_HANDOFF then
      if g.pending || !up then g else Gate(g.rollovers + 1, true)
    else if f.IsLoginResponse() then g.(pending := false)
    else g
  }

  function GateFrames(ups: nat -> bool, g: Gate, fs: seq<Frame>): Gate {
    if fs == [] then g
    else
      var n := |fs| - 1;
      GateFrame(ups(n), GateFrames(ups, g, fs[..n]), fs[n])
  }

  /** One decoded datagram as the hook meets it. */
  datatype Datagram = Datagram(result: int, plaintext: seq<byte>, ups: nat -> bool, trace: bool)

  function OnDatagrams(md5: seq<byte> -> Digest, s: KeyState, ds: seq<Datagram>): KeyState {
    if ds == [] then s
    else
      var n := |ds| - 1;
      var d := ds[n];
      OnDecodeResult(md5, d.ups, d.trace, OnDatagrams(md5, s, ds[..n]), d.result, d.plaintext)
  }

  function GateDatagrams(g: Gate, ds: seq<Datagram>): Gate {
    if ds == [] then g
    else
      var n := |ds| - 1;
      var d := ds[n];
      var before := GateDatagrams(g, ds[..n]);
      if 0 < d.result <= MAX_DATAGRAM then GateFrames(d.ups, before, Visited(d.plaintext)) else before
  }

  /** The key state that belongs to a configured key and a gate. */
  ghost predicate Agrees(md5: seq<byte> -> Digest, key: Key, g: Gate, s: KeyState) {
    && s.enabled
    && s.session == AdvanceBy(key, g.rollovers)
    && s.cipher == Derive(md5, AdvanceBy(key, g.rollovers))
    && s.pending == g.pending
  }

  lemma {:induction false} FramesAgree(md5: seq<byte> -> Digest, key: Key, ups: nat -> bool, g: Gate,
                                       s: KeyState, fs: seq<Frame>)
    requires Agrees(md5, key, g, s)
    ensures Agrees(md5, key, GateFrames(ups, g, fs), OnFrames(md5, ups, true, s, fs))
  {
    if fs != [] {
      var n := |fs| - 1;
      FramesAgree(md5, key, ups, g, s, fs[..n]);
      FrameAgrees(md5, key, ups(n), GateFrames(ups, g, fs[..n]), OnFrames(md5, ups, true, s, fs[..n]), fs[n]);
    }
  }

  lemma FrameAgrees(md5: seq<byte> -> Digest, key: Key, up: bool, g: Gate, s: KeyState, f: Frame)
    requires Agrees(md5, key, g, s)
    ensures Agrees(md5, key, GateFrame(up, g, f), OnFrame(md5, up, true, s, f))
  {
    assert AdvanceBy(key, g.rollovers + 1) == AdvanceKey(s.session);
  }

  lemma {:induction false} DatagramsAgree(md5: seq<byte> -> Digest, key: Key, g: Gate, s: KeyState,
                                          ds: seq<Datagram>)
    requires Agrees(md5, key, g, s)
    ensures Agrees(md5, key, GateDatagrams(g, ds), OnDatagrams(md5, s, ds))
  {
    if ds != [] {
      var n := |ds| - 1;
      DatagramsAgree(md5, key, g, s, ds[..n]);
      var d := ds[n];
      if 0 < d.result <= MAX_DATAGRAM {
        FramesAgree(md5, key, d.ups, GateDatagrams(g, ds[..n]), OnDatagrams(md5, s, ds[..n]), Visited(d.plaintext));
      }
    }
  }

  /** Key agreement, on whatever an exchange put on the wire as long as the key is out:
      `sent` is what the socket sent, bytes 57..76 of it are bytes 1..20 of the selection
      request. After any datagrams the cipher is the one derived from that key, rolled over
      once for each handoff that got through the gate: its first sixteen bytes are the
      wire's, its rollover word is 2n higher. */
  lemma CipherAgreesWithTheWire(md5: seq<byte> -> Digest, key: Key, session: LobbyClient.SessionMaterial,
                                server: Ipv4Address, sent: seq<byte>, ds: seq<Datagram>)
    requires sent <= LobbyClient.Wire(session, key, server) && |sent| >= 77
    ensures var n := GateDatagrams(Gate(0, false), ds).rollovers;
            var s := OnDatagrams(md5, Configured(md5, key), ds);
            && s.enabled
            && s.cipher == Derive(md5, s.session)
            && s.session == AdvanceBy(sent[57..77], n)
            && s.session[..16] == sent[57..73]
            && RolloverWord(s.session) == (ReadLe32(sent, 73) + 2 * n) % 0x1_0000_0000
  {
    DatagramsAgree(md5, key, Gate(0, false), Configured(md5, key), ds);
    AdvanceByClosedForm(key, GateDatagrams(Gate(0, false), ds).rollovers);
    KeyOnTheWire(key, session, server, sent);
  }

  lemma KeyOnTheWire(key: Key, session: LobbyClient.SessionMaterial, server: Ipv4Address, sent: seq<byte>)
    requires sent <= LobbyClient.Wire(session, key, server) && |sent| >= 77
    ensures sent[57..77] == key && sent[57..73] == key[..16] && ReadLe32(sent, 73) == RolloverWord(key)
  {
    var wire := LobbyClient.Wire(session, key, server);
    assert wire[56..84] == DataSelectionRequest(key);
    SelectionRequestCarriesKey(key);
    SliceOfSlice(wire, 56, 84, 1, 21);
    assert sent[57..77] == wire[57..77];
    SliceOfSlice(sent, 57, 77, 0, 16);
    ReadThroughSlice(sent, 57, 77, 16);
  }

  /** Two histories one after the other: the second rolls the key the first left, from the
      pending flag the first left. */
  lemma {:induction false} GatesJoin(g: Gate, first: seq<Datagram>, second: seq<Datagram>)
    ensures GateDatagrams(g, first + second) == GateDatagrams(GateDatagrams(g, first), second)
  {
    if second == [] {
      assert first + second == first;
    } else {
      var n := |second| - 1;
      GatesJoin(g, first, second[..n]);
      assert (first + second)[..|first| + n] == first + second[..n];
    }
  }

  lemma {:induction false} GateFramesCount(ups: nat -> bool, g: Gate, fs: seq<Frame>)
    ensures var h, k := GateFrames(ups, g, fs), GateFrames(ups, Gate(0, g.pending), fs);
            h.rollovers == g.rollovers + k.rollovers && h.pending == k.pending
  {
    if fs != [] {
      GateFramesCount(ups, g, fs[..|fs| - 1]);
    }
  }

  lemma {:induction false} GateDatagramsCount(g: Gate, ds: seq<Datagram>)
    ensures var h, k := GateDatagrams(g, ds), GateDatagrams(Gate(0, g.pending), ds);
            h.rollovers == g.rollovers + k.rollovers && h.pending == k.pending
  {
    if ds != [] {
      var n := |ds| - 1;
      GateDatagramsCount(g, ds[..n]);
      if 0 < ds[n].result <= MAX_DATAGRAM {
        var before, alone := GateDatagrams(g, ds[..n]), GateDatagrams(Gate(0, g.pending), ds[..n]);
        GateFramesCount(ds[n].ups, before, Visited(ds[n].plaintext));
        GateFramesCount(ds[n].ups, alone, Visited(ds[n].plaintext));
      }
    }
  }

  lemma StartAgrees(md5: seq<byte> -> Digest, key: Key)
    ensures Agrees(md5, key, Gate(0, false), Configured(md5, key))
  {
  }

  /** So the key after both is the key after the first, advanced by the second's rollovers. */
  lemma HistoriesJoin(md5: seq<byte> -> Digest, key: Key, first: seq<Datagram>, second: seq<Datagram>)
    ensures var midway := OnDatagrams(md5, Configured(md5, key), first);
            var n := GateDatagrams(Gate(0, midway.pending), second).rollovers;
            OnDatagrams(md5, Configured(md5, key), first + second).session == AdvanceBy(midway.session, n)
  {
    StartAgrees(md5, key);
    hide OnDatagrams, GateDatagrams, AdvanceBy, Derive, Configured;
    DatagramsAgree(md5, key, Gate(0, false), Configured(md5, key), first);
    DatagramsAgree(md5, key, Gate(0, false), Configured(md5, key), first + second);
    GatesJoin(Gate(0, false), first, second);
    var midway := GateDatagrams(Gate(0, false), first);
    GateDatagramsCount(midway, second);
    AdvanceByAdds(key, midway.rollovers, GateDatagrams(Gate(0, midway.pending), second).rollovers);
  }

  /** The same under concurrency: in any interleaving of guest and owner threads, a block a
      handoff copied while `key` was configured is the cipher of the key that an exchange
      with it sent, rolled over once for each advance completed since. */
  lemma CopiedBlocksAgreeWithTheWire(md5: seq<byte> -> Digest, guests: nat, actions: seq<MapKeyInterleavings.Action>,
                                     i: nat, key: Key, session: LobbyClient.SessionMaterial, server: Ipv4Address,
                                     sent: seq<byte>)
    requires var log := MapKeyInterleavings.Run(md5, MapKeyInterleavings.Initial(guests), actions).log;
             && i < |log| && log[i].BlockCopied?
             && MapKeyInterleavings.ConfiguredKey(log[..i]) == Some(key)
    requires sent <= LobbyClient.Wire(session, key, server) && |sent| >= 77
    ensures var log := MapKeyInterleavings.Run(md5, MapKeyInterleavings.Initial(guests), actions).log;
            log[i].block == Derive(md5, AdvanceBy(sent[57..77], MapKeyInterleavings.AdvancesSince(log[..i])))
  {
    MapKeyInterleavings.CopiedBlocksAreCurrent(md5, guests, actions, i);
    KeyOnTheWire(key, session, server, sent);
  }

  method ProcessDatagrams(hooks: DirectMapKey, md5: seq<byte> -> Digest, ds: seq<Datagram>)
    requires hooks.Valid()
    requires forall i :: 0 <= i < |ds| && 0 < ds[i].result <= MAX_DATAGRAM ==> |ds[i].plaintext| == ds[i].result
    modifies hooks, hooks.session, hooks.cipher
    ensures hooks.View() == OnDatagrams(md5, old(hooks.View()), ds)
  {
    for i := 0 to |ds|
      invariant hooks.View() == OnDatagrams(md5, old(hooks.View()), ds[..i])
    {
      var frames := hooks.ReceiveDecodeResult(md5, ds[i].ups, ds[i].trace, ds[i].result, ds[i].plaintext);
      OneMoreDatagram(md5, old(hooks.View()), ds, i);
    }
    assert ds[..|ds|] == ds;
  }

  lemma OneMoreDatagram(md5: seq<byte> -> Digest, s: KeyState, ds: seq<Datagram>, i: nat)
    requires i < |ds|
    ensures OnDatagrams(md5, s, ds[..i + 1])
         == OnDecodeResult(md5, ds[i].ups, ds[i].trace, OnDatagrams(md5, s, ds[..i]), ds[i].result, ds[i].plaintext)
  {
    assert ds[..i + 1][..i] == ds[..i];
  }

  /** The same at the memory the handoff hook writes: applying at a nonzero destination
      installs the cipher of the wire's key, rolled over n times, and touches nothing else. */
  method HandOver(hooks: DirectMapKey, md5: seq<byte> -> Digest, key: Key, ds: seq<Datagram>,
                  memory: array<byte>, destination: nat)
    requires hooks.Valid() && hooks.View() == Configured(md5, key)
    requires memory != hooks.session && memory != hooks.cipher
    requires 0 < destination && destination + 16 <= memory.Length
    requires forall i :: 0 <= i < |ds| && 0 < ds[i].result <= MAX_DATAGRAM ==> |ds[i].plaintext| == ds[i].result
    modifies hooks, hooks.session, hooks.cipher, memory
    ensures var n := GateDatagrams(Gate(0, false), ds).rollovers;
            memory[..] == old(memory[..destination])
                          + Derive(md5, AdvanceBy(DataSelectionRequest(key)[1..21], n))
                          + old(memory[destination + 16..])
  {
    ProcessDatagrams(hooks, md5, ds);
    DatagramsAgree(md5, key, Gate(0, false), Configured(md5, key), ds);
    SelectionRequestCarriesKey(key);
    hooks.Apply(memory, destination);
  }

  /** The whole session: the bridge hands its one generated key to the hooks, the exchange
      carries it to the server, datagrams roll it over, a handoff installs the cipher. Once
      the key is on the wire, that cipher is derived from what the socket actually sent. */
  method RunSession(bridge: LobbyBridge.Bridge, md5: seq<byte> -> Digest, up: bool, random: Option<Key>,
                    settled: LobbyBridge.Login, host: string, accountId: uint32,
                    options: LobbyClient.LobbyOptions, connection: LobbyClient.Connection,
                    socket: LobbyClient.DataSocket, ds: seq<Datagram>, memory: array<byte>, destination: nat)
    returns (ok: bool, slots: Result<byte, LobbyClient.LobbyFailure>)
    requires bridge.Valid() && !bridge.configured && !bridge.pending
    requires socket.Valid() && !socket.polling && socket.received == [] && socket.sent == []
    requires memory != bridge.hooks.session && memory != bridge.hooks.cipher && memory != bridge.bootstrap.packet
    requires 0 < destination && destination + 16 <= memory.Length
    requires forall i :: 0 <= i < |ds| && 0 < ds[i].result <= MAX_DATAGRAM ==> |ds[i].plaintext| == ds[i].result
    modifies bridge, bridge.hooks, bridge.hooks.session, bridge.hooks.cipher, bridge.endpoint
    modifies bridge.bootstrap, bridge.bootstrap.packet, socket, memory
    ensures ok && slots.Ok? ==> |socket.sent| == 84
    ensures ok && |socket.sent| >= 77 ==>
              var n := GateDatagrams(Gate(0, false), ds).rollovers;
              memory[..] == old(memory[..destination]) + Derive(md5, AdvanceBy(socket.sent[57..77], n))
                            + old(memory[destination + 16..])
    ensures !ok ==> socket.sent == [] && memory[..] == old(memory[..]) && bridge.hooks.View() == Cleared()
  {
    slots := LobbyClient.Failure(LobbyClient.InvalidInput, LobbyClient.Input);
    ok := bridge.Configure(md5, up, random, settled);
    if !ok {
      return;
    }
    var session := LobbyClient.SessionMaterial(accountId, bridge.login.hash);
    slots := LobbyClient.CoordinateCharacterLoginData(host, session, bridge.mapKey, options, connection, socket);
    HandOver(bridge.hooks, md5, bridge.mapKey, ds, memory, destination);
    if |socket.sent| >= 77 {
      KeyOnTheWire(bridge.mapKey, session, connection.server, socket.sent);
      SelectionRequestCarriesKey(bridge.mapKey);
    }
  }

  /** Repeated handoff frames without a full-size login response between them roll the key
      over at most once, and not at all while one is already pending. */
  lemma {:induction false} BurstRollsAtMostOnce(ups: nat -> bool, g: Gate, fs: seq<Frame>)
    requires forall i :: 0 <= i < |fs| ==> !fs[i].IsLoginResponse()
    ensures var h := GateFrames(ups, g, fs);
            && g.rollovers <= h.rollovers <= g.rollovers + 1
            && (h.rollovers == g.rollovers + 1 ==> !g.pending && h.pending)
            && (h.rollovers == g.rollovers ==> h.pending == g.pending)
  {
    if fs != [] {
      var n := |fs| - 1;
      BurstRollsAtMostOnce(ups, g, fs[..n]);
    }
  }
}
