/**
 * `protocol/factorio.go`: one UDP datagram out, one back. Past a 6-byte
 * header, the reply is searched for a JSON object between the first '{'
 * and the last '}'; when there is none, or it does not decode, a fixed
 * basic result is reported instead of an error.
 */
module Factorio {
  import opened Wrappers
  import opened Bytes
  import opened Types
  import Text

  const Name: string := "factorio"

  /** `DefaultPort`; this file declares no `DefaultQueryPort` and no `Games`. */
  const DefaultPort: int := 34197

  /** The query datagram. */
  const Request: seq<byte> := [0x00, 0x00, 0x00, 0x00, 0x00, 0x01]

  /** The bytes of the reply before the JSON search starts. */
  const HeaderSize: nat := 6

  const OpenBrace: byte := 0x7B
  const CloseBrace: byte := 0x7D

  /** The decoded JSON object (`FactorioServerInfo`); `encoding/json` itself is a parameter. */
  datatype Status = Status(
    name: string,
    version: string,
    gameTime: int,
    maxPlayers: int,
    players: seq<string>,
    hasMods: bool)

  /** The result when no JSON object is found or it does not decode. */
  const Basic: ServerInfo := Online("Factorio Server", Name, "Unknown", 0, 0, Some([]))

  /** The first '{' at or after index `i`. */
  function JsonStart(data: seq<byte>, i: nat): (r: Option<nat>)
    ensures r.Some? ==> i <= r.value < |data| && data[r.value] == OpenBrace
    decreases |data| - i
  {
    if i >= |data| then None
    else if data[i] == OpenBrace then Some(i)
    else JsonStart(data, i + 1)
  }

  /** `JsonStart` finds the first brace, and finds none only when there is none. */
  lemma {:induction false} JsonStartFirst(data: seq<byte>, i: nat)
    ensures JsonStart(data, i).None? <==> forall j :: i <= j < |data| ==> data[j] != OpenBrace
    ensures JsonStart(data, i).Some? ==> forall j :: i <= j < JsonStart(data, i).value ==> data[j] != OpenBrace
    decreases |data| - i
  {
    if i < |data| && data[i] != OpenBrace {
      JsonStartFirst(data, i + 1);
    }
  }

  /** The last '}' before index `n`. */
  function LastClose(json: seq<byte>, n: nat): (r: Option<nat>)
    requires n <= |json|
    ensures r.Some? ==> r.value < n && json[r.value] == CloseBrace
  {
    if n == 0 then None
    else if json[n - 1] == CloseBrace then Some(n - 1)
    else LastClose(json, n - 1)
  }

  /** `LastClose` finds the last brace, and finds none only when there is none. */
  lemma {:induction false} LastCloseLast(json: seq<byte>, n: nat)
    requires n <= |json|
    ensures LastClose(json, n).None? <==> forall j :: 0 <= j < n ==> json[j] != CloseBrace
    ensures LastClose(json, n).Some? ==> forall j :: LastClose(json, n).value < j < n ==> json[j] != CloseBrace
  {
    if n > 0 && json[n - 1] != CloseBrace {
      LastCloseLast(json, n - 1);
    }
  }

  /** Where the JSON text ends: just past the last '}', or at the end when there is none. */
  function JsonEnd(json: seq<byte>): (e: nat)
    ensures e <= |json|
  {
    match LastClose(json, |json|)
    case None => |json|
    case Some(k) => k + 1
  }

  /** The JSON text handed to the decoder, if the reply holds a '{' past its header. */
  function JsonWindow(data: seq<byte>): Option<seq<byte>>
  {
    match JsonStart(data, HeaderSize)
    case None => None
    case Some(s) => Some(data[s..][..JsonEnd(data[s..])])
  }

  /** The result of a decoded status: its fields, the players' names in order, and two extras. */
  function Decoded(st: Status): ServerInfo
  {
    ServerInfo(st.name, Name, st.version, "", 0, 0,
               PlayerInfo(|st.players|, st.maxPlayers, Some(NamedPlayers(st.players))), "", 0, true,
               map["game_time" := Text.IntToString(st.gameTime), "has_mods" := Text.FormatBool(st.hasMods)])
  }

  /** `parseResponse`, with `decode` standing for `json.Unmarshal` (None on failure). */
  function Response(data: seq<byte>, decode: seq<byte> -> Option<Status>): Result<ServerInfo>
  {
    if |data| < HeaderSize then Err("response too short")
    else match JsonWindow(data)
      case None => Ok(Basic)
      case Some(json) =>
        match decode(json)
        case None => Ok(Basic)
        case Some(st) => Ok(Decoded(st))
  }

  /** The scanning parser: a forward loop for the start, a backward loop for the end, a loop for the players. */
  method ParseResponse(data: seq<byte>, decode: seq<byte> -> Option<Status>) returns (r: Result<ServerInfo>)
    ensures r == Response(data, decode)
  {
    if |data| < HeaderSize {
      return Err("response too short");
    }
    var jsonStart := FindJsonStart(data);
    if jsonStart == -1 {
      return Ok(Basic);
    }
    var jsonData := data[jsonStart..];
    var jsonEnd := FindJsonEnd(jsonData);
    var st := decode(jsonData[..jsonEnd]);
    if st.None? {
      return Ok(Basic);
    }
    var players := CollectPlayers(st.value.players);
    return Ok(ServerInfo(st.value.name, Name, st.value.version, "", 0, 0,
                         PlayerInfo(|st.value.players|, st.value.maxPlayers, Some(players)), "", 0, true,
                         map["game_time" := Text.IntToString(st.value.gameTime),
                             "has_mods" := Text.FormatBool(st.value.hasMods)]));
  }

  /** The forward scan: the index of the first '{' from index 6 on, or -1. */
  method FindJsonStart(data: seq<byte>) returns (jsonStart: int)
    ensures jsonStart == (match JsonStart(data, HeaderSize) case None => -1 case Some(s) => s)
  {
    jsonStart := -1;
    var i := HeaderSize;
    while i < |data|
      invariant HeaderSize <= i
      invariant JsonStart(data, HeaderSize) == JsonStart(data, i)
      decreases |data| - i
    {
      if data[i] == OpenBrace {
        jsonStart := i;
        break;
      }
      i := i + 1;
    }
  }

  /** The backward scan: just past the last '}', or the length when there is none. */
  method FindJsonEnd(jsonData: seq<byte>) returns (jsonEnd: nat)
    ensures jsonEnd == JsonEnd(jsonData)
  {
    jsonEnd := |jsonData|;
    var i: nat := |jsonData|;
    while i > 0
      invariant i <= |jsonData|
      invariant LastClose(jsonData, |jsonData|) == LastClose(jsonData, i)
    {
      if jsonData[i - 1] == CloseBrace {
        jsonEnd := i;
        break;
      }
      i := i - 1;
    }
  }

  /** The loop that turns the decoded names into players. */
  method CollectPlayers(names: seq<string>) returns (players: seq<Player>)
    ensures players == NamedPlayers(names)
  {
    players := [];
    for i := 0 to |names|
      invariant players == NamedPlayers(names[..i])
    {
      players := players + [Player(names[i], 0, 0)];
    }
    assert names[..|names|] == names;
  }

  /** Only a reply shorter than the header is an error; every other reply gives an online result. */
  lemma ResponseErrors(data: seq<byte>, decode: seq<byte> -> Option<Status>)
    ensures Response(data, decode).Err? <==> |data| < HeaderSize
    ensures Response(data, decode).Err? ==> Response(data, decode).msg == "response too short"
    ensures Response(data, decode).Ok? ==>
      Response(data, decode).value.online && Response(data, decode).value.game == Name
  {
  }

  /** The header's contents are never read. */
  lemma HeaderIgnored(h1: seq<byte>, h2: seq<byte>, body: seq<byte>, decode: seq<byte> -> Option<Status>)
    requires |h1| == HeaderSize && |h2| == HeaderSize
    ensures Response(h1 + body, decode) == Response(h2 + body, decode)
  {
    HeaderIgnoredFrom(h1, h2, body, HeaderSize);
    var a, b := h1 + body, h2 + body;
    if JsonStart(a, HeaderSize).Some? {
      var s := JsonStart(a, HeaderSize).value;
      assert a[s..] == b[s..];
    }
  }

  lemma {:induction false} HeaderIgnoredFrom(h1: seq<byte>, h2: seq<byte>, body: seq<byte>, i: nat)
    requires |h1| == HeaderSize && |h2| == HeaderSize && HeaderSize <= i
    ensures JsonStart(h1 + body, i) == JsonStart(h2 + body, i)
    decreases |h1 + body| - i
  {
    if i < |h1 + body| {
      assert (h1 + body)[i] == body[i - HeaderSize] == (h2 + body)[i];
      HeaderIgnoredFrom(h1, h2, body, i + 1);
    }
  }

  /** Without a '{' past the header, the fixed basic result is reported. */
  lemma NoJsonBasic(data: seq<byte>, decode: seq<byte> -> Option<Status>)
    requires |data| >= HeaderSize && forall j :: HeaderSize <= j < |data| ==> data[j] != OpenBrace
    ensures Response(data, decode) == Ok(Basic)
    ensures Basic.name == "Factorio Server" && Basic.version == "Unknown" && Basic.online
      && Basic.players == PlayerInfo(0, 0, Some([]))
  {
    JsonStartFirst(data, HeaderSize);
  }

  /**
   * The window handed to the decoder: for a reply made of the header,
   * bytes without a '{', an object from '{' to '}', and bytes without a
   * '}', the decoder sees exactly the object.
   */
  lemma WindowOfFramed(header: seq<byte>, pre: seq<byte>, json: seq<byte>, post: seq<byte>)
    requires |header| == HeaderSize && OpenBrace !in pre && CloseBrace !in post
    requires |json| >= 2 && json[0] == OpenBrace && json[|json| - 1] == CloseBrace
    ensures JsonWindow(header + pre + json + post) == Some(json)
  {
    var d := header + pre + json + post;
    var s := HeaderSize + |pre|;
    assert d[s] == OpenBrace;
    forall j | HeaderSize <= j < s ensures d[j] != OpenBrace {
      assert d[j] == pre[j - HeaderSize];
    }
    FirstBraceAt(d, HeaderSize, s);
    var tail := d[s..];
    assert tail == json + post;
    var e := |json| - 1;
    assert tail[e] == CloseBrace;
    forall j | e < j < |tail| ensures tail[j] != CloseBrace {
      assert tail[j] == post[j - |json|];
    }
    LastBraceAt(tail, |tail|, e);
    assert tail[..e + 1] == json;
  }

  lemma {:induction false} FirstBraceAt(data: seq<byte>, i: nat, s: nat)
    requires i <= s < |data| && data[s] == OpenBrace
    requires forall j :: i <= j < s ==> data[j] != OpenBrace
    ensures JsonStart(data, i) == Some(s)
    decreases s - i
  {
    if i < s {
      FirstBraceAt(data, i + 1, s);
    }
  }

  lemma {:induction false} LastBraceAt(json: seq<byte>, n: nat, e: nat)
    requires e < n <= |json| && json[e] == CloseBrace
    requires forall j :: e < j < n ==> json[j] != CloseBrace
    ensures LastClose(json, n) == Some(e)
  {
    if e < n - 1 {
      LastBraceAt(json, n - 1, e);
    }
  }

  /** The window starts at the first '{' past the header and ends just past the last '}' after it, if any. */
  lemma WindowBounds(data: seq<byte>)
    requires JsonWindow(data).Some?
    ensures var s := JsonStart(data, HeaderSize).value; var w := JsonWindow(data).value;
      HeaderSize <= s && w == data[s..s + |w|] && w[0] == OpenBrace
      && (forall j :: HeaderSize <= j < s ==> data[j] != OpenBrace)
      && (CloseBrace in data[s..] ==> w[|w| - 1] == CloseBrace && CloseBrace !in data[s + |w|..])
      && (CloseBrace !in data[s..] ==> s + |w| == |data|)
  {
    var s := JsonStart(data, HeaderSize).value;
    var tail := data[s..];
    JsonStartFirst(data, HeaderSize);
    LastCloseLast(tail, |tail|);
    var w := JsonWindow(data).value;
    assert w == data[s..s + |w|];
    if CloseBrace in tail {
      var k :| 0 <= k < |tail| && tail[k] == CloseBrace;
      assert LastClose(tail, |tail|).Some?;
      var e := LastClose(tail, |tail|).value;
      assert |w| == e + 1 && w[|w| - 1] == tail[e];
      var after := data[s + |w|..];
      assert after == tail[e + 1..];
      forall j | 0 <= j < |after| ensures after[j] != CloseBrace {
        assert after[j] == tail[e + 1 + j];
      }
    }
  }

  /**
   * A status that decodes is reported in full: its name, version and limit,
   * its players by name in order with their number as the current count,
   * and the elapsed game time and mods flag as text.
   */
  lemma DecodedReports(data: seq<byte>, decode: seq<byte> -> Option<Status>)
    requires |data| >= HeaderSize && JsonWindow(data).Some? && decode(JsonWindow(data).value).Some?
    ensures var st := decode(JsonWindow(data).value).value;
      var r := Response(data, decode);
      r.Ok? && r.value.name == st.name && r.value.version == st.version && r.value.game == Name
      && r.value.online && r.value.players.current == |st.players| && r.value.players.max == st.maxPlayers
      && r.value.players.list.Some? && |r.value.players.list.value| == |st.players|
      && (forall i :: 0 <= i < |st.players| ==> r.value.players.list.value[i].name == st.players[i])
      && r.value.extra.Keys == {"game_time", "has_mods"}
      && (Text.INT64_MIN <= st.gameTime <= Text.INT64_MAX ==> Text.Atoi(r.value.extra["game_time"]) == Some(st.gameTime))
      && (r.value.extra["has_mods"] == "true" <==> st.hasMods)
  {
    var st := decode(JsonWindow(data).value).value;
    if Text.INT64_MIN <= st.gameTime <= Text.INT64_MAX {
      Text.AtoiOfIntToString(st.gameTime);
    }
  }

  /** A window that does not decode gives the basic result, never an error. */
  lemma UndecodedBasic(data: seq<byte>, decode: seq<byte> -> Option<Status>)
    requires |data| >= HeaderSize && JsonWindow(data).Some? && decode(JsonWindow(data).value).None?
    ensures Response(data, decode) == Ok(Basic)
  {
  }

  /** What one `conn.Read` into the 1024-byte buffer keeps of a datagram. */
  function FirstRead(reply: seq<byte>): (b: seq<byte>)
    ensures |b| <= 1024 && b <= reply
    ensures |reply| <= 1024 ==> b == reply
  {
    if |reply| <= 1024 then reply else reply[..1024]
  }

  /**
   * `Query` after the socket is set up: `server` gives the datagram sent
   * back for the request, or the read error; `ping` is the measured time.
   */
  function Query(server: seq<byte> -> Result<seq<byte>>, decode: seq<byte> -> Option<Status>, ping: int): (r: Result<ServerInfo>)
  {
    match server(Request)
    case Err(m) => Err("read failed: " + m)
    case Ok(reply) =>
      if |FirstRead(reply)| < HeaderSize then Err("response too short")
      else match Response(FirstRead(reply), decode)
        case Err(m) => Err("parse failed: " + m)
        case Ok(info) => Ok(info.(ping := ping))
  }

  /**
   * A query fails only when the read fails or the datagram is shorter than
   * 6 bytes; the parse step, having the same length check, never fails.
   */
  lemma QueryErrors(server: seq<byte> -> Result<seq<byte>>, decode: seq<byte> -> Option<Status>, ping: int)
    ensures var r := Query(server, decode, ping);
      (r.Err? <==> server(Request).Err? || |FirstRead(server(Request).value)| < HeaderSize)
      && (r.Err? && server(Request).Ok? ==> r.msg == "response too short")
      && (r.Ok? ==> r.value == Response(FirstRead(server(Request).value), decode).value.(ping := ping))
  {
  }
}
