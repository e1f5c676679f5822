/** The lobby packet codec: requests the host sends, the self-excluding identifier, the
    authenticated rewrite of guest packets, and the two responses that are parsed. */
module LobbyPackets {
  import opened Bytes

  const LOBBY_MARKER: seq<byte> := [0x49, 0x58, 0x46, 0x46]
  const LOBBY_TERMINATOR: uint32 := 0x46465849
  const LOBBY_HEADER_SIZE := 28
  const DATA_REQUEST_SIZE := 28
  const VIEW_LOGIN_SIZE := 152
  const KEY_RESPONSE_SIZE := 40
  const CHARACTER_LIST_HEADER_SIZE := 32
  const CHARACTER_ENTRY_SIZE := 140
  const AUTHENTICATED_COMMANDS: seq<uint32> :=
    [0x07, 0x14, 0x1F, 0x21, 0x22, 0x24, 0x26, 0x28, 0x2B]

  type SessionHash = Digest
  type Key = s: seq<byte> | |s| == 20 witness Zeros(20)
  type ClientVersion = s: seq<byte> | |s| == 10 witness Zeros(10)
  type Ipv4Address = s: seq<byte> | |s| == 4 witness Zeros(4)

  datatype ParseError =
    | Truncated
    | InvalidSize
    | InvalidTerminator
    | UnexpectedCommand
    | InvalidCharacterCount
    | InvalidIdentifier
    | ChecksumUnavailable

  datatype KeyResponse = KeyResponse(key: uint32, expansionMask: uint32, featureMask: uint32)

  datatype CharacterSummary = CharacterSummary(contentId: uint32, status: uint16, name: seq<byte>)

  // ---------------------------------------------------------------- requests

  function DataBind(hash: SessionHash): (p: seq<byte>) {
    [0xFE] + Zeros(11) + hash
  }

  function DataAccountRequest(accountId: uint32, hash: SessionHash, server: Ipv4Address): (p: seq<byte>) {
    [0xA1] + Le32(accountId) + server + Zeros(3) + hash
  }

  function DataSelectionRequest(key: Key): (p: seq<byte>) {
    [0xA2] + key + Zeros(7)
  }

  function ViewLogin(hash: SessionHash, version: ClientVersion): (p: seq<byte>)
    ensures |p| == VIEW_LOGIN_SIZE
  {
    Le32(VIEW_LOGIN_SIZE) + Le32(LOBBY_TERMINATOR) + Le32(0x26) + hash + Zeros(88) + version + Zeros(26)
  }

  method MakeDataBind(hash: SessionHash) returns (packet: array<byte>)
    ensures fresh(packet) && packet[..] == DataBind(hash)
  {
    packet := new byte[DATA_REQUEST_SIZE](_ => 0);
    packet[0] := 0xFE;
    CopyInto(hash, packet, 12);
  }

  method MakeDataAccountRequest(accountId: uint32, hash: SessionHash, server: Ipv4Address)
    returns (packet: array<byte>)
    ensures fresh(packet) && packet[..] == DataAccountRequest(accountId, hash, server)
  {
    packet := new byte[DATA_REQUEST_SIZE](_ => 0);
    packet[0] := 0xA1;
    WriteLe32(packet, 1, accountId);
    ghost var start := [0xA1] + Le32(accountId);
    assert packet[..] == start + Zeros(23);
    CopyInto(server, packet, 5);
    FillZeros(start, server, 23);
    FillZeros(start + server, Zeros(3), 19);
    assert packet[..] == start + server + Zeros(3) + Zeros(16);
    CopyInto(hash, packet, 12);
  }

  method MakeDataSelectionRequest(key: Key) returns (packet: array<byte>)
    ensures fresh(packet) && packet[..] == DataSelectionRequest(key)
  {
    packet := new byte[DATA_REQUEST_SIZE](_ => 0);
    packet[0] := 0xA2;
    CopyInto(key, packet, 1);
  }

  method MakeViewLogin(hash: SessionHash, version: ClientVersion) returns (packet: array<byte>)
    ensures fresh(packet) && packet[..] == ViewLogin(hash, version)
  {
    packet := new byte[VIEW_LOGIN_SIZE](_ => 0);
    WriteHeader(packet);
    ghost var header := Le32(VIEW_LOGIN_SIZE) + Le32(LOBBY_TERMINATOR) + Le32(0x26);
    assert packet[..] == header + Zeros(140);
    CopyInto(hash, packet, 12);
    FillZeros(header, hash, 140);
    FillZeros(header + hash, Zeros(88), 124);
    assert packet[..] == header + hash + Zeros(88) + Zeros(36);
    CopyInto(version, packet, 116);
    FillZeros(header + hash + Zeros(88), version, 36);
  }

  lemma FillZeros(start: seq<byte>, source: seq<byte>, n: nat)
    requires |source| <= n
    ensures (start + Zeros(n))[..|start|] + source + (start + Zeros(n))[|start| + |source|..]
         == start + source + Zeros(n - |source|)
  {
  }

  /** Size, marker and command of the view login. */
  method WriteHeader(packet: array<byte>)
    requires packet.Length == VIEW_LOGIN_SIZE
    modifies packet
    ensures packet[..] == Le32(VIEW_LOGIN_SIZE) + Le32(LOBBY_TERMINATOR) + Le32(0x26) + old(packet[12..])
  {
    WriteLe32(packet, 0, VIEW_LOGIN_SIZE);
    WriteLe32(packet, 4, LOBBY_TERMINATOR);
    WriteLe32(packet, 8, 0x26);
  }

  /** The map key travels whole: any selection request carries it at bytes 1..20. */
  lemma SelectionRequestCarriesKey(key: Key)
    ensures |DataSelectionRequest(key)| == DATA_REQUEST_SIZE
    ensures DataSelectionRequest(key)[1..21] == key
  {
  }

  /** The fields of the three data requests at their offsets; the rest is zero. */
  lemma DataRequestFields(accountId: uint32, hash: SessionHash, server: Ipv4Address, key: Key)
    ensures var p := DataBind(hash);
            |p| == 28 && p[0] == 0xFE && p[1..12] == Zeros(11) && p[12..28] == hash
    ensures var p := DataAccountRequest(accountId, hash, server);
            && |p| == 28 && p[0] == 0xA1 && ReadLe32(p, 1) == accountId && p[5..9] == server
            && p[9..12] == Zeros(3) && p[12..28] == hash
    ensures var p := DataSelectionRequest(key);
            |p| == 28 && p[0] == 0xA2 && p[1..21] == key && p[21..28] == Zeros(7)
  {
    var p := DataAccountRequest(accountId, hash, server);
    assert p[1..5] == Le32(accountId);
    ReadThroughSlice(p, 1, 5, 0);
  }

  /** And of the view login. */
  lemma ViewLoginFields(hash: SessionHash, version: ClientVersion)
    ensures var p := ViewLogin(hash, version);
            && |p| == 152 && p[0..4] == [152, 0, 0, 0] && p[4..8] == [0x49, 0x58, 0x46, 0x46] && p[8..12] == [0x26, 0, 0, 0]
            && p[12..28] == hash && p[28..116] == Zeros(88) && p[116..126] == version && p[126..152] == Zeros(26)
  {
    BytesOfWord(152, 0, 0, 0);
    BytesOfWord(0x49, 0x58, 0x46, 0x46);
    BytesOfWord(0x26, 0, 0, 0);
  }

  // -------------------------------------------------------------- identifier

  /** The hashed image: the first `size` bytes with the identifier field zeroed. */
  function HashInput(bytes: seq<byte>, size: nat): (r: seq<byte>)
    requires LOBBY_HEADER_SIZE <= size <= |bytes|
    ensures |r| == size
  {
    bytes[..12] + Zeros(16) + bytes[28..size]
  }

  /** Byte by byte. */
  lemma HashInputByte(bytes: seq<byte>, size: nat, i: nat)
    requires 28 <= size <= |bytes| && i < size
    ensures HashInput(bytes, size)[i] == if 12 <= i < 28 then 0 else bytes[i]
  {
  }

  function CalculateLobbyIdentifier(md5: seq<byte> -> Digest, up: bool, bytes: seq<byte>):
    (r: Result<Digest, ParseError>)
  {
    if |bytes| < LOBBY_HEADER_SIZE then Err(Truncated)
    else
      var size := ReadLe32(bytes, 0);
      if size < LOBBY_HEADER_SIZE || size > |bytes| then Err(InvalidSize)
      else if !up then Err(ChecksumUnavailable)
      else Ok(md5(HashInput(bytes, size)))
  }

  /** Asked for on its own, the identifier is that of the declared size, or an error for a
      buffer shorter than a header, a size outside it, or a silent provider, in this order. */
  lemma IdentifierExactly(md5: seq<byte> -> Digest, up: bool, bytes: seq<byte>)
    ensures CalculateLobbyIdentifier(md5, up, bytes) ==
            if |bytes| < 28 then Err(Truncated)
            else if ReadLe32(bytes, 0) < 28 || ReadLe32(bytes, 0) > |bytes| then Err(InvalidSize)
            else if !up then Err(ChecksumUnavailable)
            else Ok(md5(bytes[..12] + Zeros(16) + bytes[28..ReadLe32(bytes, 0)]))
  {
  }

  function ValidateLobbyHeader(bytes: seq<byte>, command: uint32, minimum: nat):
    (r: Result<uint32, ParseError>)
    requires minimum >= 12
    ensures r.Ok? <==>
      && |bytes| >= minimum
      && minimum <= ReadLe32(bytes, 0) <= |bytes|
      && ReadLe32(bytes, 4) == LOBBY_TERMINATOR
      && ReadLe32(bytes, 8) == command
    ensures r.Ok? ==> r.value == ReadLe32(bytes, 0)
  {
    if |bytes| < minimum then Err(Truncated)
    else
      var size := ReadLe32(bytes, 0);
      if size < minimum || size > |bytes| then Err(InvalidSize)
      else if ReadLe32(bytes, 4) != LOBBY_TERMINATOR then Err(InvalidTerminator)
      else if ReadLe32(bytes, 8) != command then Err(UnexpectedCommand)
      else Ok(size)
  }

  /** None when the identifier at 12..27 is the calculated one. */
  function ValidateLobbyIdentifier(md5: seq<byte> -> Digest, up: bool, bytes: seq<byte>, size: nat):
    (r: Option<ParseError>)
    requires LOBBY_HEADER_SIZE <= size <= |bytes|
  {
    var calculated := CalculateLobbyIdentifier(md5, up, bytes[..size]);
    if calculated.Err? then Some(calculated.error)
    else if calculated.value != bytes[12..28] then Some(InvalidIdentifier)
    else None
  }

  /** Behind a header check the identifier check cannot complain about length or size: it
      passes exactly when MD5 answered and the stored digest is that of the zeroed image. */
  lemma IdentifierVerdict(md5: seq<byte> -> Digest, up: bool, bytes: seq<byte>)
    requires LOBBY_HEADER_SIZE <= |bytes| && LOBBY_HEADER_SIZE <= ReadLe32(bytes, 0) <= |bytes|
    ensures var size := ReadLe32(bytes, 0);
            ValidateLobbyIdentifier(md5, up, bytes, size) ==
            if !up then Some(ChecksumUnavailable)
            else if md5(HashInput(bytes, size)) == bytes[12..28] then None
            else Some(InvalidIdentifier)
  {
    var size := ReadLe32(bytes, 0);
    ReadThroughSlice(bytes, 0, size, 0);
    assert HashInput(bytes[..size], size) == HashInput(bytes, size);
  }

  /** Write the calculated identifier into its own field. */
  function Stamp(md5: seq<byte> -> Digest, bytes: seq<byte>): (r: seq<byte>)
    requires LOBBY_HEADER_SIZE <= |bytes| && LOBBY_HEADER_SIZE <= ReadLe32(bytes, 0) <= |bytes|
    ensures |r| == |bytes|
  {
    bytes[..12] + md5(HashInput(bytes, ReadLe32(bytes, 0))) + bytes[28..]
  }

  /** The identifier ignores its own field, so stamping is a fixpoint that validates. */
  lemma StampingIsAFixpoint(md5: seq<byte> -> Digest, bytes: seq<byte>, field: Digest)
    requires LOBBY_HEADER_SIZE <= |bytes| && LOBBY_HEADER_SIZE <= ReadLe32(bytes, 0) <= |bytes|
    ensures var other := bytes[..12] + field + bytes[28..];
            && CalculateLobbyIdentifier(md5, true, other) == CalculateLobbyIdentifier(md5, true, bytes)
            && ReadLe32(other, 0) == ReadLe32(bytes, 0)
            && Stamp(md5, other) == Stamp(md5, bytes)
    ensures var stamped := Stamp(md5, bytes);
            && ReadLe32(stamped, 0) == ReadLe32(bytes, 0)
            && ValidateLobbyIdentifier(md5, true, stamped, ReadLe32(bytes, 0)) == None
  {
    var size := ReadLe32(bytes, 0);
    var other := bytes[..12] + field + bytes[28..];
    assert ReadLe32(other, 0) == size;
    assert HashInput(other, size) == HashInput(bytes, size);
    var stamped := Stamp(md5, bytes);
    assert ReadLe32(stamped, 0) == size;
    assert HashInput(stamped, size) == HashInput(bytes, size);
    assert stamped[12..28] == md5(HashInput(bytes, size));
    IdentifierVerdict(md5, true, stamped);
  }

  /** Two accepted packets with one identifier that differ anywhere else inside their
      declared sizes are an explicit MD5 collision. */
  lemma SameIdentifierIsACollision(md5: seq<byte> -> Digest, a: seq<byte>, b: seq<byte>, at: nat)
    requires LOBBY_HEADER_SIZE <= |a| && LOBBY_HEADER_SIZE <= ReadLe32(a, 0) <= |a|
    requires LOBBY_HEADER_SIZE <= |b| && LOBBY_HEADER_SIZE <= ReadLe32(b, 0) <= |b|
    requires ValidateLobbyIdentifier(md5, true, a, ReadLe32(a, 0)) == None
    requires ValidateLobbyIdentifier(md5, true, b, ReadLe32(b, 0)) == None
    requires a[12..28] == b[12..28]
    requires at < ReadLe32(a, 0) && at < ReadLe32(b, 0) && a[at] != b[at]
    ensures var x, y := HashInput(a, ReadLe32(a, 0)), HashInput(b, ReadLe32(b, 0));
            x != y && md5(x) == md5(y)
  {
    IdentifierVerdict(md5, true, a);
    IdentifierVerdict(md5, true, b);
    var x, y := HashInput(a, ReadLe32(a, 0)), HashInput(b, ReadLe32(b, 0));
    forall i | 12 <= i < 28 ensures a[i] == b[i] {
      assert a[12..28][i - 12] == b[12..28][i - 12];
    }
    assert x[at] == a[at] && y[at] == b[at];
  }

  // ------------------------------------------------------------- lobby sends

  /** What the rewrite produces; None when the packet is not lobby traffic to authenticate. */
  function Prepared(source: seq<byte>, peerPort: uint16, dataPort: uint16, viewPort: uint16,
                    hash: SessionHash, version: ClientVersion): (r: Option<seq<byte>>)
  {
    if (peerPort != dataPort && peerPort != viewPort) || |source| < DATA_REQUEST_SIZE
       || source[4..8] != LOBBY_MARKER || ReadLe32(source, 8) !in AUTHENTICATED_COMMANDS then None
    else if ReadLe32(source, 8) != 0x26 then
      Some(source[..12] + hash + source[28..])
    else if peerPort != viewPort || |source| < VIEW_LOGIN_SIZE then None
    else Some(source[..12] + hash + source[28..116] + version + source[126..])
  }

  /** The output vector is the result `output`; `source` is only read. */
  method PrepareLobbySend(source: array<byte>, peerPort: uint16, dataPort: uint16, viewPort: uint16,
                          hash: SessionHash, version: ClientVersion)
    returns (ok: bool, output: array<byte>)
    ensures fresh(output)
    ensures var p := Prepared(source[..], peerPort, dataPort, viewPort, hash, version);
            && ok == p.Some?
            && output[..] == if ok then p.value else []
  {
    hide ReadLe32;
    output := new byte[0];
    if (peerPort != dataPort && peerPort != viewPort) || source.Length < DATA_REQUEST_SIZE
       || source[4..8] != LOBBY_MARKER {
      return false, output;
    }
    var command := ReadLe32(source[..], 8);
    if command !in AUTHENTICATED_COMMANDS {
      return false, output;
    }
    output := CopyWithSessionHash(source, hash);
    if command == 0x26 {
      if peerPort != viewPort || output.Length < VIEW_LOGIN_SIZE {
        output := new byte[0];
        return false, output;
      }
      CopyInto(version, output, 116);
    }
    return true, output;
  }

  method CopyWithSessionHash(source: array<byte>, hash: SessionHash) returns (output: array<byte>)
    requires source.Length >= DATA_REQUEST_SIZE
    ensures fresh(output) && output[..] == source[..12] + hash + source[28..]
  {
    output := new byte[source.Length];
    CopyInto(source[..], output, 0);
    assert output[..] == source[..];
    CopyInto(hash, output, 12);
  }

  /** Exactly which guest packets are rewritten: at least 28 bytes to a lobby port, the
      marker, one of nine commands, and for the login command the view port and 152 bytes. */
  lemma PreparedExactly(source: seq<byte>, peerPort: uint16, dataPort: uint16, viewPort: uint16,
                        hash: SessionHash, version: ClientVersion)
    ensures Prepared(source, peerPort, dataPort, viewPort, hash, version).Some? <==>
            && (peerPort == dataPort || peerPort == viewPort)
            && |source| >= 28
            && source[4..8] == [0x49, 0x58, 0x46, 0x46]
            && ReadLe32(source, 8) in {0x07, 0x14, 0x1F, 0x21, 0x22, 0x24, 0x26, 0x28, 0x2B}
            && (ReadLe32(source, 8) == 0x26 ==> peerPort == viewPort && |source| >= 152)
  {
    CommandsListed();
  }

  lemma CommandsListed()
    ensures forall c :: c in AUTHENTICATED_COMMANDS <==> c in {0x07, 0x14, 0x1F, 0x21, 0x22, 0x24, 0x26, 0x28, 0x2B}
  {
    var l := AUTHENTICATED_COMMANDS;
    assert l[0] == 0x07 && l[1] == 0x14 && l[2] == 0x1F && l[3] == 0x21 && l[4] == 0x22 && l[5] == 0x24
        && l[6] == 0x26 && l[7] == 0x28 && l[8] == 0x2B;
  }

  /** The rewrite touches only the session-hash field and, for command 0x26, the version
      field; in particular it never changes the length or the command. */
  lemma PreparedIsFramed(source: seq<byte>, peerPort: uint16, dataPort: uint16, viewPort: uint16,
                         hash: SessionHash, version: ClientVersion)
    requires Prepared(source, peerPort, dataPort, viewPort, hash, version).Some?
    ensures var p := Prepared(source, peerPort, dataPort, viewPort, hash, version).value;
            var login := ReadLe32(source, 8) == 0x26;
            && |p| == |source|
            && p[12..28] == hash
            && ReadLe32(p, 8) == ReadLe32(source, 8)
            && (login ==> |p| >= VIEW_LOGIN_SIZE && p[116..126] == version)
            && forall i :: 0 <= i < |p| && !(12 <= i < 28) && !(login && 116 <= i < 126) ==> p[i] == source[i]
  {
    var p := Prepared(source, peerPort, dataPort, viewPort, hash, version).value;
    assert p[12..28] == hash;
  }

  /** Preparing a prepared packet changes nothing, even on the other lobby port. */
  lemma PreparingTwiceIsPreparingOnce(source: seq<byte>, peerPort: uint16, dataPort: uint16,
                                      viewPort: uint16, hash: SessionHash, version: ClientVersion)
    requires Prepared(source, peerPort, dataPort, viewPort, hash, version).Some?
    ensures var p := Prepared(source, peerPort, dataPort, viewPort, hash, version);
            Prepared(p.value, peerPort, dataPort, viewPort, hash, version) == p
  {
    PreparedIsFramed(source, peerPort, dataPort, viewPort, hash, version);
    var p := Prepared(source, peerPort, dataPort, viewPort, hash, version).value;
    assert p[4..8] == source[4..8];
    assert p[..12] + hash + p[28..] == p;
    if ReadLe32(source, 8) == 0x26 {
      assert p[..12] + hash + p[28..116] + version + p[126..] == p;
    }
  }

  /** The login the host builds is already in prepared form. */
  lemma ViewLoginIsItsOwnImage(dataPort: uint16, viewPort: uint16, hash: SessionHash, version: ClientVersion)
    ensures Prepared(ViewLogin(hash, version), viewPort, dataPort, viewPort, hash, version)
         == Some(ViewLogin(hash, version))
  {
    var p := ViewLogin(hash, version);
    assert p[4..8] == Le32(LOBBY_TERMINATOR) == LOBBY_MARKER;
    assert p[8..12] == Le32(0x26);
    ReadThroughSlice(p, 8, 12, 0);
    assert 0x26 in AUTHENTICATED_COMMANDS by { assert AUTHENTICATED_COMMANDS[6] == 0x26; }
    assert p[..12] + hash + p[28..116] + version + p[126..] == p;
  }

  // ------------------------------------------------------------ key response

  function ParseKeyResponse(md5: seq<byte> -> Digest, up: bool, bytes: seq<byte>):
    (r: Result<KeyResponse, ParseError>)
  {
    var size := ValidateLobbyHeader(bytes, 0x05, KEY_RESPONSE_SIZE);
    if size.Err? then Err(size.error)
    else if size.value != KEY_RESPONSE_SIZE then Err(InvalidSize)
    else
      var identifier := ValidateLobbyIdentifier(md5, up, bytes, size.value);
      if identifier.Some? then Err(identifier.value)
      else Ok(KeyResponse(ReadLe32(bytes, 28), ReadLe32(bytes, 32), ReadLe32(bytes, 36)))
  }

  predicate IsCompleteKeyResponse(md5: seq<byte> -> Digest, up: bool, bytes: seq<byte>) {
    |bytes| == KEY_RESPONSE_SIZE && ParseKeyResponse(md5, up, bytes).Ok?
  }

  /** Exactly which buffers hold a key response, and what is read from it. */
  lemma KeyResponsesAccepted(md5: seq<byte> -> Digest, up: bool, bytes: seq<byte>)
    ensures ParseKeyResponse(md5, up, bytes).Ok? <==>
            && up && |bytes| >= 40
            && ReadLe32(bytes, 0) == 40 && ReadLe32(bytes, 4) == 0x46465849 && ReadLe32(bytes, 8) == 5
            && md5(HashInput(bytes, 40)) == bytes[12..28]
    ensures ParseKeyResponse(md5, up, bytes).Ok? ==>
            ParseKeyResponse(md5, up, bytes).value
            == KeyResponse(ReadLe32(bytes, 28), ReadLe32(bytes, 32), ReadLe32(bytes, 36))
    ensures IsCompleteKeyResponse(md5, up, bytes) <==> |bytes| == 40 && ParseKeyResponse(md5, up, bytes).Ok?
  {
    if |bytes| >= 40 && 40 <= ReadLe32(bytes, 0) <= |bytes| {
      IdentifierVerdict(md5, up, bytes);
    }
  }

  /** And which error a buffer gives that does not. */
  lemma KeyResponseErrors(md5: seq<byte> -> Digest, up: bool, bytes: seq<byte>)
    ensures ParseKeyResponse(md5, up, bytes).Err? ==>
      ParseKeyResponse(md5, up, bytes).error ==
        if |bytes| < 40 then Truncated
        else if !(40 <= ReadLe32(bytes, 0) <= |bytes|) then InvalidSize
        else if ReadLe32(bytes, 4) != 0x46465849 then InvalidTerminator
        else if ReadLe32(bytes, 8) != 5 then UnexpectedCommand
        else if ReadLe32(bytes, 0) != 40 then InvalidSize
        else if !up then ChecksumUnavailable
        else InvalidIdentifier
  {
    if |bytes| >= 40 && 40 <= ReadLe32(bytes, 0) <= |bytes| {
      IdentifierVerdict(md5, up, bytes);
    }
  }

  function KeyResponseBytes(k: KeyResponse): (p: seq<byte>)
    ensures |p| == KEY_RESPONSE_SIZE && ReadLe32(p, 0) == KEY_RESPONSE_SIZE
  {
    var header := Le32(KEY_RESPONSE_SIZE) + Le32(LOBBY_TERMINATOR) + Le32(0x05);
    var body := Le32(k.key) + Le32(k.expansionMask) + Le32(k.featureMask);
    var p := header + Zeros(16) + body;
    ReadThroughSlice(p, 0, 4, 0);
    assert p[0..4] == Le32(KEY_RESPONSE_SIZE);
    p
  }

  /** A stamped key response is complete and parses to what was encoded. */
  lemma KeyResponseRoundTrip(md5: seq<byte> -> Digest, k: KeyResponse)
    ensures var s := Stamp(md5, KeyResponseBytes(k));
            ParseKeyResponse(md5, true, s) == Ok(k) && IsCompleteKeyResponse(md5, true, s)
  {
    var plain := KeyResponseBytes(k);
    StampingIsAFixpoint(md5, plain, Zeros(16));
    KeyResponseFields(plain, k);
    var s := Stamp(md5, plain);
    assert s[..12] == plain[..12] && s[28..] == plain[28..];
    SameFields(s, plain);
  }

  /** Conversely a complete key response is the stamped encoding of what it parses to, so
      the 40 bytes hold nothing the parser did not account for. */
  lemma CompleteKeyResponseIsStamped(md5: seq<byte> -> Digest, bytes: seq<byte>)
    requires IsCompleteKeyResponse(md5, true, bytes)
    ensures bytes == Stamp(md5, KeyResponseBytes(ParseKeyResponse(md5, true, bytes).value))
  {
    var r := ParseKeyResponse(md5, true, bytes).value;
    SixWordsAround(bytes, KEY_RESPONSE_SIZE, LOBBY_TERMINATOR, 0x05, r);
    IdentifierVerdict(md5, true, bytes);
    assert bytes[0..12] == bytes[..12];
    assert HashInput(bytes, 40) == KeyResponseBytes(r);
    StampOfImage(md5, KeyResponseBytes(r), bytes);
  }

  lemma SixWordsAround(bytes: seq<byte>, a: uint32, b: uint32, c: uint32, k: KeyResponse)
    requires |bytes| == 40
    requires ReadLe32(bytes, 0) == a && ReadLe32(bytes, 4) == b && ReadLe32(bytes, 8) == c
    requires k == KeyResponse(ReadLe32(bytes, 28), ReadLe32(bytes, 32), ReadLe32(bytes, 36))
    ensures (Le32(a) + Le32(b) + Le32(c)) + Zeros(16) + (Le32(k.key) + Le32(k.expansionMask) + Le32(k.featureMask))
         == bytes[0..12] + Zeros(16) + bytes[28..40]
  {
    ThreeWords(bytes, 0);
    ThreeWords(bytes, 28);
  }

  lemma StampOfImage(md5: seq<byte> -> Digest, plain: seq<byte>, bytes: seq<byte>)
    requires |bytes| == 40 && plain == bytes[..12] + Zeros(16) + bytes[28..40] && ReadLe32(plain, 0) == 40
    requires md5(plain) == bytes[12..28]
    ensures Stamp(md5, plain) == bytes
  {
    assert HashInput(plain, 40) == plain;
    assert bytes == bytes[..12] + bytes[12..28] + bytes[28..40];
  }

  lemma ThreeWords(s: seq<byte>, at: nat)
    requires at + 12 <= |s|
    ensures s[at..at + 12] == Le32(ReadLe32(s, at)) + Le32(ReadLe32(s, at + 4)) + Le32(ReadLe32(s, at + 8))
  {
    Le32OfRead(s, at);
    Le32OfRead(s, at + 4);
    Le32OfRead(s, at + 8);
    assert s[at..at + 12] == s[at..at + 4] + s[at + 4..at + 8] + s[at + 8..at + 12];
  }

  lemma KeyResponseFields(p: seq<byte>, k: KeyResponse)
    requires p == KeyResponseBytes(k)
    ensures ReadLe32(p, 4) == LOBBY_TERMINATOR && ReadLe32(p, 8) == 0x05
    ensures ReadLe32(p, 28) == k.key && ReadLe32(p, 32) == k.expansionMask && ReadLe32(p, 36) == k.featureMask
  {
    assert p[4..8] == Le32(LOBBY_TERMINATOR) && p[8..12] == Le32(0x05);
    assert p[28..32] == Le32(k.key) && p[32..36] == Le32(k.expansionMask) && p[36..40] == Le32(k.featureMask);
    ReadThroughSlice(p, 4, 8, 0);
    ReadThroughSlice(p, 8, 12, 0);
    ReadThroughSlice(p, 28, 32, 0);
    ReadThroughSlice(p, 32, 36, 0);
    ReadThroughSlice(p, 36, 40, 0);
  }

  lemma SameFields(s: seq<byte>, t: seq<byte>)
    requires |s| == |t| == 40 && s[..12] == t[..12] && s[28..] == t[28..]
    ensures ReadLe32(s, 0) == ReadLe32(t, 0) && ReadLe32(s, 4) == ReadLe32(t, 4)
    ensures ReadLe32(s, 8) == ReadLe32(t, 8) && ReadLe32(s, 28) == ReadLe32(t, 28)
    ensures ReadLe32(s, 32) == ReadLe32(t, 32) && ReadLe32(s, 36) == ReadLe32(t, 36)
  {
    forall i | 0 <= i < 12 ensures s[i] == t[i] { assert s[..12][i] == t[..12][i]; }
    forall i | 28 <= i < 40 ensures s[i] == t[i] { assert s[28..][i - 28] == t[28..][i - 28]; }
  }
}
