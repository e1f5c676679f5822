/** The bridge between the host's login and the guest's network hooks: the hand-over of
    one generated key, the in-place rewrite of guest sends, and the suppression of the
    guest's duplicate view login. */
module LobbyBridge {
  import opened Bytes
  import opened LobbyPackets
  import opened MapKeys
  import opened DirectMapKeys
  import opened ViewBootstrap
  import opened WorldLogin

  type Port = p: uint16 | p != 0 witness 1

  /** What authentication and the environment settled before the hand-over. */
  datatype Login = Login(hash: SessionHash, version: ClientVersion, ipv4: uint32, dataPort: Port, viewPort: Port)

  /** What the bridge consumes while suppression is pending. */
  predicate IsViewLogin(viewPort: uint16, port: uint16, bytes: seq<byte>) {
    port == viewPort && |bytes| == VIEW_LOGIN_SIZE && ReadLe32(bytes, 8) == 0x26
  }

  predicate Consumes(viewPort: uint16, pending: bool, port: uint16, bytes: seq<byte>) {
    pending && IsViewLogin(viewPort, port, bytes)
  }

  /** A send is consumed exactly when, with suppression pending, it goes to the view port,
      is 152 bytes long and has command 26 00 00 00 at offset 8. */
  lemma ConsumedInBytes(viewPort: uint16, pending: bool, port: uint16, bytes: seq<byte>)
    ensures Consumes(viewPort, pending, port, bytes) <==>
            pending && port == viewPort && |bytes| == 152 && bytes[8..12] == [0x26, 0, 0, 0]
  {
    if |bytes| == 152 {
      Le32OfRead(bytes, 8);
      CommandInBytes(ReadLe32(bytes, 8));
    }
  }

  lemma CommandInBytes(command: uint32)
    ensures command == 0x26 <==> Le32(command) == [0x26, 0, 0, 0]
  {
    if Le32(command) == [0x26, 0, 0, 0] {
      assert ReadLe32([0x26, 0, 0, 0], 0) == 0x26;
    }
  }

  /** The login the host builds, and whatever the rewrite makes of it, is what the bridge
      consumes on the view port. */
  lemma ViewLoginsAreConsumed(viewPort: uint16, dataPort: uint16, hash: SessionHash, version: ClientVersion,
                              newHash: SessionHash, newVersion: ClientVersion)
    ensures Consumes(viewPort, true, viewPort, ViewLogin(hash, version))
    ensures var p := Prepared(ViewLogin(hash, version), viewPort, dataPort, viewPort, newHash, newVersion);
            p.Some? && Consumes(viewPort, true, viewPort, p.value)
  {
    var login := ViewLogin(hash, version);
    assert login[8..12] == Le32(0x26);
    ReadThroughSlice(login, 8, 12, 0);
    ViewLoginIsItsOwnImage(dataPort, viewPort, hash, version);
    RewriteKeepsClassification(login, viewPort, dataPort, viewPort, newHash, newVersion);
  }

  datatype Send = Send(port: uint16, bytes: seq<byte>)

  /** The guest sends that get past the suppression. */
  function Passed(viewPort: uint16, pending: bool, sends: seq<Send>): seq<Send> {
    if sends == [] then []
    else
      var consumed := Consumes(viewPort, pending, sends[0].port, sends[0].bytes);
      (if consumed then [] else [sends[0]]) + Passed(viewPort, pending && !consumed, sends[1..])
  }

  lemma {:induction false} NotPendingPassesAll(viewPort: uint16, sends: seq<Send>)
    ensures Passed(viewPort, false, sends) == sends
  {
    if sends != [] {
      NotPendingPassesAll(viewPort, sends[1..]);
    }
  }

  /** Of the guest's sends exactly the first view login is held back; every other send,
      later view logins included, passes in order. */
  lemma {:induction false} OnlyTheFirstViewLoginIsConsumed(viewPort: uint16, sends: seq<Send>, k: nat)
    requires k <= |sends|
    requires forall i :: 0 <= i < k ==> !IsViewLogin(viewPort, sends[i].port, sends[i].bytes)
    requires k < |sends| ==> IsViewLogin(viewPort, sends[k].port, sends[k].bytes)
    ensures Passed(viewPort, true, sends) == if k == |sends| then sends else sends[..k] + sends[k + 1..]
  {
    if k == 0 {
      if sends != [] {
        NotPendingPassesAll(viewPort, sends[1..]);
      }
    } else {
      OnlyTheFirstViewLoginIsConsumed(viewPort, sends[1..], k - 1);
      if k < |sends| {
        assert [sends[0]] + (sends[1..][..k - 1] + sends[1..][k..]) == sends[..k] + sends[k + 1..];
      }
    }
  }

  /** The rewrite of guest sends cannot change what counts as a view login, so it does not
      matter whether the rewrite or the consumption is called first. */
  lemma RewriteKeepsClassification(source: seq<byte>, port: uint16, dataPort: uint16, viewPort: uint16,
                                   hash: SessionHash, version: ClientVersion)
    requires Prepared(source, port, dataPort, viewPort, hash, version).Some?
    ensures IsViewLogin(viewPort, port, Prepared(source, port, dataPort, viewPort, hash, version).value)
         == IsViewLogin(viewPort, port, source)
  {
    PreparedIsFramed(source, port, dataPort, viewPort, hash, version);
  }

  class Bridge {
    const hooks: DirectMapKey
    const endpoint: DirectMapEndpoint
    const bootstrap: DirectViewBootstrap
    var configured: bool
    var login: Login
    var mapKey: Key
    var pending: bool

    ghost predicate Valid()
      reads this, endpoint
    {
      && hooks.Valid() && bootstrap.Valid() && endpoint.Valid()
      && bootstrap.packet != hooks.session && bootstrap.packet != hooks.cipher
    }

    /** The hooks' globals outlive the bridge; the bridge is fresh. */
    constructor (hooks: DirectMapKey, endpoint: DirectMapEndpoint, bootstrap: DirectViewBootstrap)
      requires hooks.Valid() && bootstrap.Valid() && endpoint.Valid()
      requires bootstrap.packet != hooks.session && bootstrap.packet != hooks.cipher
      ensures Valid() && !configured && !pending
      ensures this.hooks == hooks && this.endpoint == endpoint && this.bootstrap == bootstrap
    {
      this.hooks, this.endpoint, this.bootstrap := hooks, endpoint, bootstrap;
      configured, pending := false, false;
      login := Login(Zeros(16), Zeros(10), 0, 54230, 54001);
      mapKey := Zeros(20);
    }

    /** The hand-over after a successful authentication. `random` is the generated key, None
        when the generator failed. Either everything is armed with that one key, or keys
        and endpoint are clear, nothing is pending and the bootstrap is untouched. */
    method Configure(md5: seq<byte> -> Digest, up: bool, random: Option<Key>, settled: Login) returns (ok: bool)
      requires Valid() && !configured && !pending
      modifies this, hooks, hooks.session, hooks.cipher, endpoint, bootstrap, bootstrap.packet
      ensures Valid()
      ensures ok == (random.Some? && up && settled.ipv4 != 0 && settled.dataPort != 0xFFFF)
      ensures configured == pending == ok
      ensures ok ==>
        && mapKey == random.value && login == settled
        && hooks.View() == Configured(md5, mapKey)
        && endpoint.View() == Endpoint(true, settled.ipv4, settled.dataPort)
        && bootstrap.View() == Armed(settled.viewPort, ViewLogin(settled.hash, settled.version))
      ensures !ok ==>
        && hooks.View() == Cleared()
        && endpoint.View() == Endpoint(false, 0, 0)
        && bootstrap.View() == old(bootstrap.View())
    {
      login := settled;
      configured := true;
      if random.None? {
        Reset();
        return false;
      }
      mapKey := random.value;
      var keyed := hooks.Configure(md5, up, Some(mapKey));
      if !keyed {
        Reset();
        return false;
      }
      var addressed := endpoint.Configure(login.ipv4, login.dataPort);
      if !addressed {
        Reset();
        return false;
      }
      var viewLogin := MakeViewLogin(login.hash, login.version);
      var armed := bootstrap.Configure(login.viewPort, Some(viewLogin[..]));
      if !armed {
        // Cannot happen: the port is not zero and the packet is the right size.
        assert false;
      }
      pending := true;
      return true;
    }

    /** Dropping the state runs its destructor. */
    method Reset()
      requires Valid()
      modifies this, hooks, hooks.session, hooks.cipher, endpoint
      ensures Valid() && !configured && pending == old(pending)
      ensures hooks.View() == Cleared() && endpoint.View() == Endpoint(false, 0, 0)
    {
      mapKey := Zeros(20);
      hooks.Clear();
      endpoint.Clear();
      configured := false;
    }

    /** Overwrites the guest's buffer with its prepared form, or leaves it alone. */
    method BeforeSend(bytes: array<byte>, peerPort: uint16)
      requires configured
      modifies bytes
      ensures var p := Prepared(old(bytes[..]), peerPort, login.dataPort, login.viewPort, login.hash, login.version);
              bytes[..] == if p.Some? then p.value else old(bytes[..])
    {
      var ok, prepared :=
        PrepareLobbySend(bytes, peerPort, login.dataPort, login.viewPort, login.hash, login.version);
      if !ok {
        return;
      }
      PreparedIsFramed(bytes[..], peerPort, login.dataPort, login.viewPort, login.hash, login.version);
      CopyInto(prepared[..], bytes, 0);
    }

    /** True at most once per arming: consuming clears the flag in the same exchange. */
    method ConsumeSend(bytes: seq<byte>, peerPort: uint16) returns (consumed: bool)
      requires configured
      modifies this`pending
      ensures consumed == Consumes(login.viewPort, old(pending), peerPort, bytes)
      ensures consumed <==> old(pending) && peerPort == login.viewPort && |bytes| == 152 && bytes[8..12] == [0x26, 0, 0, 0]
      ensures pending == (old(pending) && !consumed)
    {
      ConsumedInBytes(login.viewPort, pending, peerPort, bytes);
      if peerPort != login.viewPort || |bytes| != 152 || ReadLe32(bytes, 8) != 0x26 {
        return false;
      }
      consumed := pending;
      pending := false;
    }
  }
}
