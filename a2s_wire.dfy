/**
 * The Valve server query wire format (A2S_INFO and A2S_PLAYER) as the query
 * library speaks it. `protocol/a2s.go`, `protocol/source.go` and
 * `protocol/valheim.go` each carry their own, character-for-character equal,
 * copy of `readNullTerminatedString`, `parseA2SInfoResponse` and
 * `parsePlayersResponse`; this module is that one algorithm. The only
 * per-file difference, how a player's duration field is read, is the
 * parameter `dur`.
 */
module A2SWire {
  import opened Wrappers
  import opened Bytes
  import opened Types
  import Text

  /** The packed A2S_INFO record; strings stay bytes until they reach a `ServerInfo`. */
  datatype Info = Info(
    protocol: byte,
    name: seq<byte>,
    mapName: seq<byte>,
    folder: seq<byte>,
    game: seq<byte>,
    appID: nat,
    players: byte,
    maxPlayers: byte,
    bots: byte,
    serverType: byte,
    environment: byte,
    visibility: byte,
    vac: byte,
    version: seq<byte>)

  /** How a player's four duration bytes (as a little-endian uint32) become seconds. */
  type DurationRule = nat -> int

  // ---------------------------------------------------------------- request frames

  const HEADER: seq<byte> := [0xFF, 0xFF, 0xFF, 0xFF]

  const QueryString: string := "Source Engine Query"

  /** `FF FF FF FF 54 "Source Engine Query" 00` */
  function InfoRequest(): (r: seq<byte>)
    ensures |r| == 25 && r[..4] == HEADER && r[4] == 0x54 && r[24] == 0
  {
    PayloadAscii(QueryString);
    HEADER + [0x54] + Ascii(QueryString) + [0]
  }

  /** The request's payload is one C string: no 0 byte comes before its terminator. */
  lemma InfoRequestPayload()
    ensures forall i :: 5 <= i < 24 ==> InfoRequest()[i] != 0
  {
    PayloadAscii(QueryString);
    var r := InfoRequest();
    var a := Ascii(QueryString);
    forall i | 5 <= i < 24 ensures r[i] != 0 {
      assert r[i] == a[i - 5];
    }
  }

  lemma PayloadAscii(w: string)
    requires w == QueryString
    ensures |w| == 19 && forall i :: 0 <= i < |w| ==> 0 < w[i] as int < 0x80
  {
  }

  /** The info request sent again with the server's challenge appended. */
  function ChallengedInfoRequest(challenge: nat): (r: seq<byte>)
    requires challenge < UINT32_LIMIT
    ensures |r| == 29 && r[..25] == InfoRequest() && LE32(r[25..]) == challenge
  {
    InfoRequest() + EncodeLE32(challenge)
  }

  /** `FF FF FF FF 55` followed by the little-endian challenge. */
  function PlayerRequest(challenge: nat): (r: seq<byte>)
    requires challenge < UINT32_LIMIT
    ensures |r| == 9 && r[..4] == HEADER && r[4] == 0x55 && LE32(r[5..]) == challenge
  {
    HEADER + [0x55] + EncodeLE32(challenge)
  }

  /** The first player request asks for a challenge with 0xFFFFFFFF: nine bytes, all 0xFF but the 0x55. */
  lemma FirstPlayerRequest()
    ensures PlayerRequest(0xFFFF_FFFF) == [0xFF, 0xFF, 0xFF, 0xFF, 0x55, 0xFF, 0xFF, 0xFF, 0xFF]
  {
  }

  // ---------------------------------------------------------------- response dispatch

  datatype InfoReply = ChallengeReply(challenge: nat) | InfoPayload(payload: seq<byte>)

  /** What the first reply to an info request is: a challenge, an info payload or an error. */
  function DispatchInfo(resp: seq<byte>): (r: Result<InfoReply>)
    ensures r.Ok? <==> |resp| >= 5 && ((resp[4] == 0x41 && |resp| >= 9) || resp[4] == 0x49)
    ensures r.Ok? && resp[4] == 0x41 ==> r.value == ChallengeReply(LE32(resp[5..9]))
    ensures r.Ok? && resp[4] == 0x49 ==> r.value == InfoPayload(resp[5..])
  {
    if |resp| < 5 then Err("response too short")
    else if resp[4] == 0x41 then
      if |resp| < 9 then Err("challenge response too short")
      else Ok(ChallengeReply(LE32(resp[5..9])))
    else if resp[4] != 0x49 then Err("unexpected response type: " + Text.Hex2(resp[4]))
    else Ok(InfoPayload(resp[5..]))
  }

  /** A challenge frame `FF FF FF FF 41` + LE(c), as a server sends it, dispatches to `c`. */
  lemma DispatchChallengeFrame(c: nat, rest: seq<byte>)
    requires c < UINT32_LIMIT
    ensures DispatchInfo(HEADER + [0x41] + EncodeLE32(c) + rest) == Ok(ChallengeReply(c))
  {
    var resp := HEADER + [0x41] + EncodeLE32(c) + rest;
    assert resp[5..9] == EncodeLE32(c);
  }

  // ---------------------------------------------------------------- strings

  /**
   * `readNullTerminatedString` seen from the read position: the bytes up to
   * the first 0, and what follows that 0; an error when no 0 remains.
   */
  function CString(rem: seq<byte>): (r: Result<(seq<byte>, seq<byte>)>)
    ensures r.Ok? ==> |r.value.0| < |rem| && |r.value.1| < |rem|
    ensures r.Err? ==> r.msg == "unterminated string"
  {
    if rem == [] then Err("unterminated string")
    else if rem[0] == 0 then Ok(([], rem[1..]))
    else
      var r := CString(rem[1..]);
      if r.Err? then r
      else
        assert rem == [rem[0]] + rem[1..];
        Ok(([rem[0]] + r.value.0, r.value.1))
  }

  /**
   * What reading a string means: it succeeds exactly when a 0 remains, and
   * then splits the bytes at the first 0; otherwise the error is
   * "unterminated string".
   */
  lemma {:induction false} CStringSplit(rem: seq<byte>)
    ensures CString(rem).Ok? <==> 0 in rem
    ensures CString(rem).Ok? ==>
      rem == CString(rem).value.0 + [0] + CString(rem).value.1 && 0 !in CString(rem).value.0
    ensures CString(rem).Err? ==> CString(rem).msg == "unterminated string"
  {
    if rem != [] && rem[0] != 0 {
      CStringSplit(rem[1..]);
      assert rem == [rem[0]] + rem[1..];
    }
  }

  /** A string without 0 bytes, written with its terminator, is read back whole, whatever follows. */
  lemma {:induction false} CStringOf(s: seq<byte>, t: seq<byte>)
    requires 0 !in s
    ensures CString(s + [0] + t) == Ok((s, t))
  {
    if s == [] {
      assert s + [0] + t == [0] + t;
    } else {
      assert (s + [0] + t)[1..] == s[1..] + [0] + t;
      CStringOf(s[1..], t);
      assert [s[0]] + s[1..] == s;
    }
  }

  /** Bytes added after a string that was read do not change it; they only lengthen what follows it. */
  lemma CStringOfPrefix(p: seq<byte>, x: seq<byte>)
    requires CString(p).Ok?
    ensures CString(p + x) == Ok((CString(p).value.0, CString(p).value.1 + x))
  {
    var s := CString(p).value.0;
    var t := CString(p).value.1;
    CStringSplit(p);
    Reassociate(s, t, x);
    CStringOf(s, t + x);
  }

  lemma Reassociate(s: seq<byte>, t: seq<byte>, x: seq<byte>)
    ensures s + [0] + t + x == s + [0] + (t + x)
  {
  }

  /** `readNullTerminatedString`: scans for the 0 from `offset` and returns the string and the offset after the 0. */
  method ReadNullTerminatedString(data: seq<byte>, offset: nat) returns (r: Result<(seq<byte>, nat)>)
    ensures r.Ok? <==> offset <= |data| && CString(data[offset..]).Ok?
    ensures r.Ok? ==> r.value.1 <= |data| && r.value.0 == CString(data[offset..]).value.0
                      && data[r.value.1..] == CString(data[offset..]).value.1
    ensures r.Err? ==> r.msg == "unterminated string"
  {
    var i := offset;
    while i < |data| && data[i] != 0
      invariant offset <= i
      invariant forall j :: offset <= j < i && j < |data| ==> data[j] != 0
      decreases |data| - i
    {
      i := i + 1;
    }
    if i >= |data| {
      if offset <= |data| {
        assert 0 !in data[offset..] by {
          forall j | 0 <= j < |data| - offset
            ensures data[offset..][j] != 0
          {
            assert data[offset..][j] == data[offset + j];
          }
        }
        CStringSplit(data[offset..]);
      }
      return Err("unterminated string");
    }
    assert data[offset..] == data[offset..i] + [0] + data[i + 1..];
    CStringOf(data[offset..i], data[i + 1..]);
    return Ok((data[offset..i], i + 1));
  }

  // ---------------------------------------------------------------- the info record

  /** Go's `fmt.Errorf("<what>: %w", err)` on an error, nothing on a success. */
  function Wrap<T>(r: Result<T>, what: string): (w: Result<T>)
    ensures w.Ok? <==> r.Ok?
    ensures r.Ok? ==> w == r
  {
    if r.Ok? then r else Err(what + ": " + r.msg)
  }

  /**
   * `parseA2SInfoResponse` on the bytes after the 5-byte header: each field
   * in turn, with the error of the first one that is missing.
   */
  function DecodeInfo(data: seq<byte>): Result<Info>
  {
    if |data| < 1 then Err("data too short")
    else
      var name := CString(data[1..]);
      if name.Err? then Err("read name failed: " + name.msg)
      else
        var mapName := CString(name.value.1);
        if mapName.Err? then Err("read map failed: " + mapName.msg)
        else
          var folder := CString(mapName.value.1);
          if folder.Err? then Err("read folder failed: " + folder.msg)
          else
            var game := CString(folder.value.1);
            if game.Err? then Err("read game failed: " + game.msg)
            else DecodeInfoTail(game.value.1, data[0], name.value.0, mapName.value.0,
                                folder.value.0, game.value.0)
  }

  /** The fixed-width fields and the version string, from the bytes `rem` after the game. */
  function DecodeInfoTail(rem: seq<byte>, protocol: byte, name: seq<byte>,
                          mapName: seq<byte>, folder: seq<byte>, game: seq<byte>): Result<Info>
  {
    if |rem| < 2 then Err("missing app ID")
    else if |rem| < 3 then Err("missing players")
    else if |rem| < 4 then Err("missing max players")
    else if |rem| < 5 then Err("missing bots")
    else if |rem| < 6 then Err("missing server type")
    else if |rem| < 7 then Err("missing environment")
    else if |rem| < 8 then Err("missing visibility")
    else if |rem| < 9 then Err("missing VAC")
    else
      var version := CString(rem[9..]);
      if version.Err? then Err("read version failed: " + version.msg)
      else Ok(Info(protocol, name, mapName, folder, game, LE16(rem[..2]),
                   rem[2], rem[3], rem[4], rem[5], rem[6], rem[7], rem[8], version.value.0))
  }

  /** `parseA2SInfoResponse`, advancing `offset` field by field. */
  method ParseInfoResponse(data: seq<byte>) returns (r: Result<Info>)
    ensures r == DecodeInfo(data)
  {
    if |data| < 1 {
      return Err("data too short");
    }
    var offset := 0;
    var protocol := data[offset];
    offset := offset + 1;

    var name := ReadNullTerminatedString(data, offset);
    if name.Err? {
      return Err("read name failed: " + name.msg);
    }
    assert CString(data[1..]) == Ok((name.value.0, data[name.value.1..]));
    offset := name.value.1;
    var mapName := ReadNullTerminatedString(data, offset);
    if mapName.Err? {
      return Err("read map failed: " + mapName.msg);
    }
    assert CString(data[name.value.1..]) == Ok((mapName.value.0, data[mapName.value.1..]));
    offset := mapName.value.1;
    var folder := ReadNullTerminatedString(data, offset);
    if folder.Err? {
      return Err("read folder failed: " + folder.msg);
    }
    assert CString(data[mapName.value.1..]) == Ok((folder.value.0, data[folder.value.1..]));
    offset := folder.value.1;
    var game := ReadNullTerminatedString(data, offset);
    if game.Err? {
      return Err("read game failed: " + game.msg);
    }
    assert CString(data[folder.value.1..]) == Ok((game.value.0, data[game.value.1..]));
    offset := game.value.1;
    r := ParseInfoTail(data, offset, protocol, name.value.0, mapName.value.0, folder.value.0,
                       game.value.0);
  }

  /** The second half of `parseA2SInfoResponse`: one bounds check per fixed-width field, then the version. */
  method ParseInfoTail(data: seq<byte>, start: nat, protocol: byte, name: seq<byte>,
                       mapName: seq<byte>, folder: seq<byte>, game: seq<byte>) returns (r: Result<Info>)
    requires start <= |data|
    ensures r == DecodeInfoTail(data[start..], protocol, name, mapName, folder, game)
  {
    var offset := start;
    if offset + 1 >= |data| {
      return Err("missing app ID");
    }
    var appID := LE16(data[offset..offset + 2]);
    offset := offset + 2;
    if offset >= |data| {
      return Err("missing players");
    }
    var players := data[offset];
    offset := offset + 1;
    if offset >= |data| {
      return Err("missing max players");
    }
    var maxPlayers := data[offset];
    offset := offset + 1;
    if offset >= |data| {
      return Err("missing bots");
    }
    var bots := data[offset];
    offset := offset + 1;
    if offset >= |data| {
      return Err("missing server type");
    }
    var serverType := data[offset];
    offset := offset + 1;
    if offset >= |data| {
      return Err("missing environment");
    }
    var environment := data[offset];
    offset := offset + 1;
    if offset >= |data| {
      return Err("missing visibility");
    }
    var visibility := data[offset];
    offset := offset + 1;
    if offset >= |data| {
      return Err("missing VAC");
    }
    var vac := data[offset];
    offset := offset + 1;
    assert data[start..][..2] == data[start..start + 2];
    assert data[start..][9..] == data[offset..];
    var version := ReadNullTerminatedString(data, offset);
    if version.Err? {
      return Err("read version failed: " + version.msg);
    }
    return Ok(Info(protocol, name, mapName, folder, game, appID, players, maxPlayers, bots,
                   serverType, environment, visibility, vac, version.value.0));
  }

  // ---------------------------------------------------------------- the test encoder

  /** A record the test server can send: no string holds a 0 byte, the App ID fits 16 bits. */
  predicate Encodable(i: Info) {
    0 !in i.name && 0 !in i.mapName && 0 !in i.folder && 0 !in i.game && 0 !in i.version
    && i.appID < UINT16_LIMIT
  }

  /** The seven one-byte fields after the App ID. */
  function FixedBytes(i: Info): seq<byte> {
    [i.players, i.maxPlayers, i.bots, i.serverType, i.environment, i.visibility, i.vac]
  }

  /** A string as the test server writes it: its bytes, then a 0. */
  function CStr(s: seq<byte>): seq<byte> {
    s + [0]
  }

  /** The number of bytes a record takes on the wire. */
  function InfoSize(i: Info): nat {
    1 + (|i.name| + 1) + (|i.mapName| + 1) + (|i.folder| + 1) + (|i.game| + 1) + 2 + 7
    + (|i.version| + 1)
  }

  /**
   * The mock server's A2S_INFO payload followed by `rest`: fields in order,
   * strings 0-terminated, App ID little-endian.
   */
  function EncodeInfo(i: Info, rest: seq<byte>): (r: seq<byte>)
    requires i.appID < UINT16_LIMIT
    ensures |r| == InfoSize(i) + |rest|
  {
    [i.protocol] + (CStr(i.name) + (CStr(i.mapName) + (CStr(i.folder) + (CStr(i.game)
    + (EncodeLE16(i.appID) + (FixedBytes(i) + (CStr(i.version) + rest)))))))
  }

  /** The whole mock datagram: the `FF FF FF FF 49` header, then the payload. */
  function EncodeInfoResponse(i: Info): seq<byte>
    requires i.appID < UINT16_LIMIT
  {
    HEADER + [0x49] + EncodeInfo(i, [])
  }

  /** The fixed-width fields and the version as the test server writes them are read back. */
  lemma DecodeInfoTailOfFields(i: Info, rest: seq<byte>)
    requires Encodable(i)
    ensures DecodeInfoTail(EncodeLE16(i.appID) + (FixedBytes(i) + (CStr(i.version) + rest)),
                           i.protocol, i.name, i.mapName, i.folder, i.game) == Ok(i)
  {
    var d := EncodeLE16(i.appID) + (FixedBytes(i) + (CStr(i.version) + rest));
    assert d[..2] == EncodeLE16(i.appID);
    assert d[9..] == i.version + [0] + rest;
    CStringOf(i.version, rest);
  }

  /** Round trip: the parser reads back exactly the record the test server encoded, whatever follows it. */
  lemma DecodeEncodeInfo(i: Info, rest: seq<byte>)
    requires Encodable(i)
    ensures DecodeInfo(EncodeInfo(i, rest)) == Ok(i)
  {
    var x5 := EncodeLE16(i.appID) + (FixedBytes(i) + (CStr(i.version) + rest));
    var x4 := CStr(i.game) + x5;
    var x3 := CStr(i.folder) + x4;
    var x2 := CStr(i.mapName) + x3;
    var x1 := CStr(i.name) + x2;
    assert EncodeInfo(i, rest)[1..] == x1;
    CStringOf(i.name, x2);
    CStringOf(i.mapName, x3);
    CStringOf(i.folder, x4);
    CStringOf(i.game, x5);
    DecodeInfoTailOfFields(i, rest);
  }

  /** The mock datagram dispatches to its payload, which parses to the encoded record. */
  lemma DecodeInfoResponse(i: Info)
    requires Encodable(i)
    ensures DispatchInfo(EncodeInfoResponse(i)) == Ok(InfoPayload(EncodeInfo(i, [])))
    ensures DecodeInfo(EncodeInfoResponse(i)[5..]) == Ok(i)
  {
    assert EncodeInfoResponse(i)[5..] == EncodeInfo(i, []);
    DecodeEncodeInfo(i, []);
  }

  /** What the parser returns can always be sent back, and it used at least `InfoSize` bytes. */
  lemma DecodedInfoFits(d: seq<byte>)
    requires DecodeInfo(d).Ok?
    ensures Encodable(DecodeInfo(d).value) && InfoSize(DecodeInfo(d).value) <= |d|
  {
    var n := CString(d[1..]).value;
    var m := CString(n.1).value;
    var f := CString(m.1).value;
    var g := CString(f.1).value;
    var v := CString(g.1[9..]).value;
    CStringSplit(d[1..]);
    CStringSplit(n.1);
    CStringSplit(m.1);
    CStringSplit(f.1);
    CStringSplit(g.1[9..]);
  }

  /** The fixed-width fields and the version are read the same when more bytes follow. */
  lemma DecodeInfoTailOfPrefix(p: seq<byte>, x: seq<byte>, protocol: byte, name: seq<byte>,
                               mapName: seq<byte>, folder: seq<byte>, game: seq<byte>)
    requires DecodeInfoTail(p, protocol, name, mapName, folder, game).Ok?
    ensures DecodeInfoTail(p + x, protocol, name, mapName, folder, game)
         == DecodeInfoTail(p, protocol, name, mapName, folder, game)
  {
    assert (p + x)[..2] == p[..2];
    assert (p + x)[9..] == p[9..] + x;
    CStringOfPrefix(p[9..], x);
  }

  /** Bytes after an accepted record are ignored: the parser reads the same when more follow. */
  lemma DecodeInfoOfPrefix(p: seq<byte>, x: seq<byte>)
    requires DecodeInfo(p).Ok?
    ensures DecodeInfo(p + x) == DecodeInfo(p)
  {
    assert (p + x)[1..] == p[1..] + x;
    CStringOfPrefix(p[1..], x);
    var n := CString(p[1..]).value.1;
    CStringOfPrefix(n, x);
    var m := CString(n).value.1;
    CStringOfPrefix(m, x);
    var f := CString(m).value.1;
    CStringOfPrefix(f, x);
    var g := CString(f).value.1;
    DecodeInfoTailOfPrefix(g, x, p[0], CString(p[1..]).value.0, CString(n).value.0,
                           CString(m).value.0, CString(f).value.0);
  }

  /**
   * Truncation is always detected: no strict prefix of an encoded record,
   * the empty one included, parses.
   */
  lemma TruncatedInfoRejected(i: Info, k: nat)
    requires Encodable(i) && k < InfoSize(i)
    ensures DecodeInfo(EncodeInfo(i, [])[..k]).Err?
  {
    var e := EncodeInfo(i, []);
    if DecodeInfo(e[..k]).Ok? {
      DecodedInfoFits(e[..k]);
      DecodeInfoOfPrefix(e[..k], e[k..]);
      assert e[..k] + e[k..] == e;
      DecodeEncodeInfo(i, []);
      assert false;
    }
  }

  // ---------------------------------------------------------------- the player list

  /**
   * One pass of the loop of `parsePlayersResponse` on the bytes `rem` not yet
   * read: an index byte, a name, a 4-byte score and a 4-byte duration make
   * the player, returned with the bytes after it; None where the loop breaks.
   */
  function PlayerRecord(rem: seq<byte>, dur: DurationRule): (r: Option<(Player, seq<byte>)>)
    ensures r.Some? ==> |r.value.1| + 10 <= |rem|
  {
    if rem == [] then None
    else
      var c := CString(rem[1..]);
      if c.Err? then None
      else
        var t := c.value.1;
        if |t| < 4 then None
        else if |t| < 8 then None
        else Some((Player(Latin1(c.value.0), LE32(t[..4]), dur(LE32(t[4..8]))), t[8..]))
  }

  /** The players the loop collects from `rem` with `count` passes left; the first failing pass ends it. */
  function PlayerEntries(rem: seq<byte>, count: nat, dur: DurationRule): (ps: seq<Player>)
    ensures |ps| <= count
    decreases count
  {
    if count == 0 then []
    else
      var r := PlayerRecord(rem, dur);
      if r.None? then [] else [r.value.0] + PlayerEntries(r.value.1, count - 1, dur)
  }

  /** `parsePlayersResponse` on the bytes after the 5-byte header. */
  function DecodePlayers(data: seq<byte>, dur: DurationRule): (r: Result<seq<Player>>)
    ensures r.Err? <==> data == []
    ensures r.Ok? ==> |r.value| <= data[0]
  {
    if |data| < 1 then Err("data too short") else Ok(PlayerEntries(data[1..], data[0], dur))
  }

  /** `parsePlayersResponse`: reads up to the announced number of players, stopping at the first short record. */
  method ParsePlayersResponse(data: seq<byte>, dur: DurationRule) returns (r: Result<seq<Player>>)
    ensures r == DecodePlayers(data, dur)
  {
    if |data| < 1 {
      return Err("data too short");
    }
    var count: nat := data[0];
    var players: seq<Player> := [];
    var offset: nat := 1;
    for i := 0 to count
      invariant offset <= |data|
      invariant players + PlayerEntries(data[offset..], count - i, dur)
             == PlayerEntries(data[1..], count, dur)
    {
      var next := ReadPlayer(data, offset, dur);
      PlayerEntriesStep(data[offset..], count - i, dur);
      if next.None? {
        assert players + [] == players;
        break;
      }
      players := players + [next.value.0];
      offset := next.value.1;
    }
    assert players + [] == players;
    return Ok(players);
  }

  /** One pass of the loop: the players are the record read, then those after it; none when it fails. */
  lemma PlayerEntriesStep(rem: seq<byte>, count: nat, dur: DurationRule)
    requires count > 0
    ensures PlayerRecord(rem, dur).None? ==> PlayerEntries(rem, count, dur) == []
    ensures PlayerRecord(rem, dur).Some? ==>
      PlayerEntries(rem, count, dur)
      == [PlayerRecord(rem, dur).value.0] + PlayerEntries(PlayerRecord(rem, dur).value.1, count - 1, dur)
  {
  }

  /** The body of the loop of `parsePlayersResponse`: one record from `offset`, and the offset after it. */
  method ReadPlayer(data: seq<byte>, offset: nat, dur: DurationRule) returns (r: Option<(Player, nat)>)
    requires offset <= |data|
    ensures r.None? <==> PlayerRecord(data[offset..], dur).None?
    ensures r.Some? ==>
      r.value.0 == PlayerRecord(data[offset..], dur).value.0
      && r.value.1 <= |data| && data[r.value.1..] == PlayerRecord(data[offset..], dur).value.1
  {
    if offset >= |data| {
      return None;
    }
    var pos := offset + 1;
    assert data[offset..][1..] == data[pos..];
    var name := ReadNullTerminatedString(data, pos);
    if name.Err? {
      return None;
    }
    pos := name.value.1;
    if pos + 3 >= |data| {
      return None;
    }
    var score := LE32(data[pos..pos + 4]);
    pos := pos + 4;
    if pos + 3 >= |data| {
      return None;
    }
    var duration := dur(LE32(data[pos..pos + 4]));
    pos := pos + 4;
    ghost var t := data[pos - 8..];
    assert t[..4] == data[pos - 8..pos - 4] && t[4..8] == data[pos - 4..pos];
    assert t[8..] == data[pos..];
    return Some((Player(Latin1(name.value.0), score, duration), pos));
  }

  /** A record that was read is read the same when more bytes follow; they are left over after it. */
  lemma PlayerRecordOfPrefix(p: seq<byte>, x: seq<byte>, dur: DurationRule)
    requires PlayerRecord(p, dur).Some?
    ensures PlayerRecord(p + x, dur)
         == Some((PlayerRecord(p, dur).value.0, PlayerRecord(p, dur).value.1 + x))
  {
    assert (p + x)[1..] == p[1..] + x;
    CStringOfPrefix(p[1..], x);
    var t := CString(p[1..]).value.1;
    assert (t + x)[..4] == t[..4] && (t + x)[4..8] == t[4..8];
    assert (t + x)[8..] == t[8..] + x;
  }

  /** Cutting the data short can only cut the player list short: a truncated record ends it silently. */
  lemma {:induction false} PlayerEntriesOfPrefix(p: seq<byte>, x: seq<byte>, count: nat, dur: DurationRule)
    ensures PlayerEntries(p, count, dur) <= PlayerEntries(p + x, count, dur)
    decreases count
  {
    if count > 0 && PlayerRecord(p, dur).Some? {
      PlayerRecordOfPrefix(p, x, dur);
      var v := PlayerRecord(p, dur).value.0;
      var t := PlayerRecord(p, dur).value.1;
      PlayerEntriesOfPrefix(t, x, count - 1, dur);
      var a := PlayerEntries(t, count - 1, dur);
      var b := PlayerEntries(t + x, count - 1, dur);
      assert PlayerEntries(p, count, dur) == [v] + a;
      assert PlayerEntries(p + x, count, dur) == [v] + b;
      assert ([v] + b)[..1 + |a|] == [v] + a by {
        assert b[..|a|] == a;
      }
    }
  }

  /** A player as the test server writes it: a signed 32-bit score and the duration's raw bits. */
  datatype WirePlayer = WirePlayer(name: seq<byte>, score: int, durationBits: nat)

  predicate EncodablePlayer(p: WirePlayer) {
    0 !in p.name && -0x8000_0000 <= p.score < 0x8000_0000 && p.durationBits < UINT32_LIMIT
  }

  predicate AllEncodable(ps: seq<WirePlayer>) {
    forall k :: 0 <= k < |ps| ==> EncodablePlayer(ps[k])
  }

  /**
   * The records from the one numbered `index` on, followed by `rest`: index
   * byte, name, 0, the score in two's complement and the duration bits, all
   * little-endian.
   */
  function EncodePlayerRecords(ps: seq<WirePlayer>, index: nat, rest: seq<byte>): seq<byte>
    requires AllEncodable(ps)
    decreases |ps|
  {
    if ps == [] then rest
    else [index % 0x100] + (CStr(ps[0].name) + (EncodeLE32(ps[0].score % UINT32_LIMIT)
         + (EncodeLE32(ps[0].durationBits) + EncodePlayerRecords(ps[1..], index + 1, rest))))
  }

  /** The mock server's A2S_PLAYER payload followed by `rest`: the count byte, then the records. */
  function EncodePlayers(ps: seq<WirePlayer>, rest: seq<byte>): seq<byte>
    requires |ps| < 0x100 && AllEncodable(ps)
  {
    [|ps|] + EncodePlayerRecords(ps, 0, rest)
  }

  /** What the parser makes of one encoded player: the score comes back as an unsigned 32-bit value. */
  function Decoded(p: WirePlayer, dur: DurationRule): Player
  {
    Player(Latin1(p.name), if p.score < 0 then p.score + UINT32_LIMIT else p.score, dur(p.durationBits))
  }

  /** One encoded record is read back as its decoded player, and reading goes on right after it. */
  lemma PlayerRecordOf(p: WirePlayer, index: nat, t: seq<byte>, dur: DurationRule)
    requires EncodablePlayer(p)
    ensures PlayerRecord([index % 0x100] + (CStr(p.name) + (EncodeLE32(p.score % UINT32_LIMIT)
                         + (EncodeLE32(p.durationBits) + t))), dur)
         == Some((Decoded(p, dur), t))
  {
    var e2 := EncodeLE32(p.durationBits);
    var e1 := EncodeLE32(p.score % UINT32_LIMIT);
    var s := e1 + (e2 + t);
    var d := [index % 0x100] + (CStr(p.name) + s);
    assert d[1..] == p.name + [0] + s;
    CStringOf(p.name, s);
    SplitFields(e1, e2, t);
  }

  /** Where two 4-byte fields and what follows them sit. */
  lemma SplitFields(e1: seq<byte>, e2: seq<byte>, t: seq<byte>)
    requires |e1| == 4 && |e2| == 4
    ensures var s := e1 + (e2 + t); s[..4] == e1 && s[4..8] == e2 && s[8..] == t
  {
    var s := e1 + (e2 + t);
    assert s[4..] == e2 + t;
  }

  lemma {:induction false} PlayerEntriesOfRecords(ps: seq<WirePlayer>, index: nat, rest: seq<byte>,
                                                  dur: DurationRule)
    requires AllEncodable(ps)
    ensures PlayerEntries(EncodePlayerRecords(ps, index, rest), |ps|, dur)
         == seq(|ps|, k requires 0 <= k < |ps| => Decoded(ps[k], dur))
    decreases |ps|
  {
    if ps != [] {
      var tail := EncodePlayerRecords(ps[1..], index + 1, rest);
      PlayerRecordOf(ps[0], index, tail, dur);
      PlayerEntriesOfRecords(ps[1..], index + 1, rest, dur);
      DecodedCons(ps, dur);
    }
  }

  lemma DecodedCons(ps: seq<WirePlayer>, dur: DurationRule)
    requires ps != []
    ensures seq(|ps|, k requires 0 <= k < |ps| => Decoded(ps[k], dur))
         == [Decoded(ps[0], dur)] + seq(|ps| - 1, k requires 0 <= k < |ps| - 1 => Decoded(ps[1..][k], dur))
  {
  }

  /**
   * Round trip for the player list: every encoded player comes back in order,
   * with its name, its score read as unsigned and its duration by `dur`.
   */
  lemma DecodeEncodePlayers(ps: seq<WirePlayer>, rest: seq<byte>, dur: DurationRule)
    requires |ps| < 0x100 && AllEncodable(ps)
    ensures DecodePlayers(EncodePlayers(ps, rest), dur)
         == Ok(seq(|ps|, k requires 0 <= k < |ps| => Decoded(ps[k], dur)))
  {
    PlayerEntriesOfRecords(ps, 0, rest, dur);
    assert EncodePlayers(ps, rest)[1..] == EncodePlayerRecords(ps, 0, rest);
  }

  // ---------------------------------------------------------------- the exchanges

  /** The server as the client sees it: the datagram it answers to each request, None when reading fails. */
  type Server = seq<byte> -> Option<seq<byte>>

  /** Every read of the exchange lands in a 1400-byte buffer: a longer datagram is cut there. */
  const ReadBufferSize := 1400

  /** What one read of `reply` into the 1400-byte buffer yields. */
  function FirstRead(reply: seq<byte>): (b: seq<byte>)
    ensures |b| <= ReadBufferSize && b <= reply
    ensures |reply| <= ReadBufferSize ==> b == reply
  {
    if |reply| <= ReadBufferSize then reply else reply[..ReadBufferSize]
  }

  /**
   * The info exchange of `Query`/`queryWithChallenge`: send the info request;
   * on a challenge send it again with the challenge, and accept only an info
   * reply to that; parse the payload. Each reply is seen through one read.
   */
  function QueryInfo(server: Server): (r: Result<Info>)
  {
    match server(InfoRequest())
    case None => Err("read failed")
    case Some(full) =>
      var resp := FirstRead(full);
      var reply :- DispatchInfo(resp);
      match reply
      case InfoPayload(payload) => Wrap(DecodeInfo(payload), "parse failed")
      case ChallengeReply(c) =>
        match server(ChallengedInfoRequest(c))
        case None => Err("read challenge response failed")
        case Some(full2) =>
          var resp2 := FirstRead(full2);
          if |resp2| < 5 || resp2[4] != 0x49 then Err("invalid challenge response")
          else Wrap(DecodeInfo(resp2[5..]), "parse challenge response failed")
  }

  /** A player reply: at least one byte after an `FF FF FF FF 44` header. */
  function PlayerPayload(resp: seq<byte>, dur: DurationRule): Result<seq<Player>>
  {
    if |resp| < 6 || resp[4] != 0x44 then Err("invalid player response")
    else DecodePlayers(resp[5..], dur)
  }

  /** `queryPlayers`: ask with 0xFFFFFFFF, answer one challenge, then parse the player reply. */
  function QueryPlayers(server: Server, dur: DurationRule): (r: Result<seq<Player>>)
  {
    match server(PlayerRequest(0xFFFF_FFFF))
    case None => Err("read failed")
    case Some(full) =>
      var resp := FirstRead(full);
      if |resp| < 5 then Err("player response too short")
      else if resp[4] == 0x41 then
        if |resp| < 9 then Err("player challenge too short")
        else match server(PlayerRequest(LE32(resp[5..9])))
          case None => Err("read failed")
          case Some(full2) => PlayerPayload(FirstRead(full2), dur)
      else PlayerPayload(resp, dur)
  }

  /**
   * `Players.List` after the optional player query: nil when players were not
   * requested, the parsed list, or an empty non-nil list when the query failed.
   */
  function PlayerList(server: Server, dur: DurationRule, requested: bool): (list: Option<seq<Player>>)
    ensures list.None? <==> !requested
    ensures requested && QueryPlayers(server, dur).Err? ==> list == Some([])
    ensures requested && QueryPlayers(server, dur).Ok? ==> list == Some(QueryPlayers(server, dur).value)
  {
    if !requested then None
    else match QueryPlayers(server, dur)
      case Ok(ps) => Some(ps)
      case Err(_) => Some([])
  }

  /** Whatever the info exchange returns is a record the test server could send. */
  lemma QueryInfoFits(server: Server)
    requires QueryInfo(server).Ok?
    ensures Encodable(QueryInfo(server).value)
  {
    var reply := DispatchInfo(FirstRead(server(InfoRequest()).value)).value;
    if reply.InfoPayload? {
      DecodedInfoFits(reply.payload);
    } else {
      DecodedInfoFits(FirstRead(server(ChallengedInfoRequest(reply.challenge)).value)[5..]);
    }
  }

  /** A server that answers the info request with the mock datagram, when it fits one read, is read back exactly. */
  lemma QueryInfoOfMock(server: Server, i: Info)
    requires Encodable(i) && |EncodeInfoResponse(i)| <= ReadBufferSize
    requires server(InfoRequest()) == Some(EncodeInfoResponse(i))
    ensures QueryInfo(server) == Ok(i)
  {
    DecodeInfoResponse(i);
  }

  /**
   * The read buffer in action: a name that runs past the 1400 bytes of the
   * read loses its terminator, so the reply is refused whatever follows it.
   */
  lemma QueryInfoOfLongName(server: Server, protocol: byte, name: seq<byte>, rest: seq<byte>)
    requires 0 !in name && |name| >= ReadBufferSize - 6
    requires server(InfoRequest()) == Some(HEADER + [0x49, protocol] + name + rest)
    ensures QueryInfo(server) == Err("parse failed" + ": " + "read name failed: " + "unterminated string")
  {
    var full := HEADER + [0x49, protocol] + name + rest;
    var resp := FirstRead(full);
    assert resp == full[..ReadBufferSize];
    assert resp[4] == 0x49;
    var payload := resp[5..];
    assert payload[1..] == name[..ReadBufferSize - 6];
    CStringSplit(payload[1..]);
    assert DecodeInfo(payload) == Err("read name failed: " + "unterminated string");
    QueryInfoOfPayload(server, payload);
  }

  /** A first reply carrying the info payload is parsed, and a parse error is reported as such. */
  lemma QueryInfoOfPayload(server: Server, payload: seq<byte>)
    requires server(InfoRequest()).Some?
    requires DispatchInfo(FirstRead(server(InfoRequest()).value)) == Ok(InfoPayload(payload))
    ensures QueryInfo(server) == Wrap(DecodeInfo(payload), "parse failed")
  {
  }

  /** A server that first sends a challenge and then the mock datagram is read back exactly too. */
  lemma QueryInfoOfChallengingMock(server: Server, c: nat, i: Info)
    requires Encodable(i) && |EncodeInfoResponse(i)| <= ReadBufferSize && c < UINT32_LIMIT
    requires server(InfoRequest()) == Some(HEADER + [0x41] + EncodeLE32(c))
    requires server(ChallengedInfoRequest(c)) == Some(EncodeInfoResponse(i))
    ensures QueryInfo(server) == Ok(i)
  {
    DispatchChallengeFrame(c, []);
    assert HEADER + [0x41] + EncodeLE32(c) + [] == HEADER + [0x41] + EncodeLE32(c);
    DecodeInfoResponse(i);
  }

  // ---------------------------------------------------------------- the result

  /**
   * The result fields every A2S `Query` takes from the record: name, map and
   * version as text, the two player counts, the ping, and Online. Game,
   * Extra and the player list are left to each protocol.
   */
  function InfoFields(i: Info, ping: int): ServerInfo
  {
    ServerInfo(Latin1(i.name), "", Latin1(i.version), "", 0, 0, PlayerInfo(i.players, i.maxPlayers, None),
               Latin1(i.mapName), ping, true, map[])
  }

  /** The `Extra` map of the a2s and source results: the game description and the decimal App ID. */
  function SteamExtra(i: Info): (e: map<string, string>)
    ensures e.Keys == {"game", "app_id"}
  {
    map["game" := Latin1(i.game), "app_id" := Text.NatToString(i.appID)]
  }

  /** The App ID in `Extra` reads back as the record's App ID. */
  lemma SteamExtraAppID(i: Info)
    requires i.appID < UINT16_LIMIT
    ensures Text.Atoi(SteamExtra(i)["app_id"]) == Some(i.appID)
    ensures Text.ScanInt(SteamExtra(i)["app_id"]) == Some(i.appID)
  {
    Text.AtoiOfIntToString(i.appID);
    Text.ScanIntOfNatToString(i.appID, "");
    assert Text.NatToString(i.appID) + "" == Text.NatToString(i.appID);
  }

  /** A server that answers the mock way gets its players back through the whole exchange. */
  lemma QueryPlayersOfMock(server: Server, c: nat, ps: seq<WirePlayer>, dur: DurationRule)
    requires c < UINT32_LIMIT && |ps| < 0x100 && AllEncodable(ps)
    requires server(PlayerRequest(0xFFFF_FFFF)) == Some(HEADER + [0x41] + EncodeLE32(c))
    requires c != 0xFFFF_FFFF
    requires server(PlayerRequest(c)) == Some(HEADER + [0x44] + EncodePlayers(ps, []))
    requires |HEADER + [0x44] + EncodePlayers(ps, [])| <= ReadBufferSize
    ensures QueryPlayers(server, dur) == Ok(seq(|ps|, k requires 0 <= k < |ps| => Decoded(ps[k], dur)))
  {
    var resp := HEADER + [0x41] + EncodeLE32(c);
    assert resp[5..9] == EncodeLE32(c);
    var resp2 := HEADER + [0x44] + EncodePlayers(ps, []);
    assert resp2[5..] == EncodePlayers(ps, []);
    DecodeEncodePlayers(ps, [], dur);
  }
}
