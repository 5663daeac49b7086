/**
 * `protocol/a2s.go`: the generic A2S protocol. It speaks the shared wire
 * format of `A2SWire`, rounds each player's float32 duration to whole
 * seconds (the rounding rule is a parameter here), and names the game from
 * the Steam App ID alone, with a table of its own.
 */
module A2S {
  import opened Wrappers
  import opened Bytes
  import opened Types
  import Text
  import GameDetector
  import opened A2SWire

  /** `Name`, `DefaultPort`, `DefaultQueryPort` and `Games`. */
  const Descriptor: Protocol := Protocol("a2s", 27015, 27015, [
    GameConfig("counter-strike-2", 27015, 27015),
    GameConfig("counter-strike", 27015, 27015),
    GameConfig("counter-source", 27015, 27015),
    GameConfig("garrys-mod", 27015, 27015),
    GameConfig("team-fortress-2", 27015, 27015),
    GameConfig("left-4-dead", 27015, 27015),
    GameConfig("left-4-dead-2", 27015, 27015),
    GameConfig("half-life", 27015, 27015),
    GameConfig("insurgency", 27015, 27015),
    GameConfig("day-of-defeat", 27015, 27015),
    GameConfig("project-zomboid", 16261, 16261),
    GameConfig("satisfactory", 7777, 15777),
    GameConfig("7-days-to-die", 26900, 26900),
    GameConfig("arma-3", 2302, 2303),
    GameConfig("dayz", 2302, 27016),
    GameConfig("battalion-1944", 7777, 7777),
    GameConfig("rust", 28015, 28015),
    GameConfig("valheim", 2456, 2457),
    GameConfig("ark-survival-evolved", 7777, 27015)])

  /** The `switch` of this file's `detectByAppID`: "" for an ID it does not list. */
  function AppIDGame(id: int): string
  {
    match id
    case 730 => "counter-strike"
    case 240 => "counter-strike"
    case 4000 => "garrys-mod"
    case 440 => "team-fortress-2"
    case 550 => "left-4-dead-2"
    case 500 => "left-4-dead"
    case 320 => "half-life"
    case 300 => "day-of-defeat"
    case 252490 => "rust"
    case 346110 => "ark-survival-evolved"
    case 222880 => "insurgency"
    case 108600 => "project-zomboid"
    case 526870 => "satisfactory"
    case 251570 => "7-days-to-die"
    case 892970 => "valheim"
    case 107410 => "arma-3"
    case 221100 => "dayz"
    case 489940 => "battalion-1944"
    case _ => ""
  }

  /**
   * This table lists the same IDs as the central detector's and agrees with
   * it except on 240 and 300, which it maps to the older game names.
   */
  lemma AppIDTableAgainstDetector(id: int)
    ensures AppIDGame(id) != "" <==> id in GameDetector.AppIDs
    ensures id != 240 && id != 300 ==> AppIDGame(id) == GameDetector.AppIDGame(id)
    ensures AppIDGame(240) == "counter-strike" && GameDetector.AppIDGame(240) == "counter-source"
    ensures AppIDGame(300) == "day-of-defeat" && GameDetector.AppIDGame(300) == "day-of-defeat-source"
  {
  }

  /** `detectByAppID`: the number `fmt.Sscanf` reads from the text, looked up; "" when there is none. */
  function DetectByAppID(appID: string): (g: string)
    ensures g != "" ==> Text.ScanInt(appID).Some? && g == AppIDGame(Text.ScanInt(appID).value)
  {
    match Text.ScanInt(appID)
    case None => ""
    case Some(id) => AppIDGame(id)
  }

  /**
   * `DetectGame`: "a2s" for a missing or offline result; otherwise the game
   * of a recognised `app_id` in `Extra`, and "a2s" when there is none.
   */
  function DetectGame(info: Option<ServerInfo>): (g: string)
    ensures info.None? || !info.value.online ==> g == "a2s"
    ensures g == "a2s" || exists id :: g == AppIDGame(id) && id in GameDetector.AppIDs
  {
    if info.None? || !info.value.online then "a2s"
    else if "app_id" in info.value.extra && DetectByAppID(info.value.extra["app_id"]) != "" then
      var g := DetectByAppID(info.value.extra["app_id"]);
      AppIDTableAgainstDetector(Text.ScanInt(info.value.extra["app_id"]).value);
      g
    else "a2s"
  }

  /** Only the App ID counts: the description and the server name never change the answer. */
  lemma DetectGameIgnoresDescription(info: ServerInfo, name: string, desc: string)
    ensures DetectGame(Some(info.(name := name, extra := info.extra["game" := desc])))
         == DetectGame(Some(info))
  {
    var other := info.(name := name, extra := info.extra["game" := desc]);
    assert ("app_id" in other.extra) == ("app_id" in info.extra);
    if "app_id" in info.extra {
      assert other.extra["app_id"] == info.extra["app_id"];
    }
  }

  /** The result of a successful query, built from the record, the ping and the player list. */
  function QueryResult(i: Info, ping: int, list: Option<seq<Player>>): ServerInfo
  {
    var r := InfoFields(i, ping).(extra := SteamExtra(i));
    r.(game := DetectGame(Some(r)), players := r.players.(list := list))
  }

  /**
   * `Query` (with `queryWithChallenge` and `queryPlayers`) against a server
   * that answers each request with a datagram: an error exactly when the
   * info exchange fails, with its message; otherwise the assembled result.
   */
  function Query(server: Server, ping: int, opts: Options, round: DurationRule): (r: Result<ServerInfo>)
    ensures r.Ok? <==> QueryInfo(server).Ok?
    ensures r.Err? ==> r.msg == QueryInfo(server).msg
  {
    match QueryInfo(server)
    case Err(m) => Err(m)
    case Ok(i) => Ok(QueryResult(i, ping, PlayerList(server, round, opts.players)))
  }

  /**
   * What a successful query reports: the record's strings and counts, the
   * ping, Online, the description and decimal App ID in `Extra`, the game
   * the App ID names (or "a2s"), and a player list present exactly when
   * players were asked for.
   */
  lemma QueryReports(server: Server, ping: int, opts: Options, round: DurationRule)
    requires QueryInfo(server).Ok?
    ensures var i := QueryInfo(server).value;
      var r := Query(server, ping, opts, round).value;
      r.online && r.name == Latin1(i.name) && r.mapName == Latin1(i.mapName)
      && r.version == Latin1(i.version) && r.ping == ping
      && r.players.current == i.players && r.players.max == i.maxPlayers
      && r.extra.Keys == {"game", "app_id"} && r.extra["game"] == Latin1(i.game)
      && Text.Atoi(r.extra["app_id"]) == Some(i.appID)
      && r.game == (if AppIDGame(i.appID) != "" then AppIDGame(i.appID) else "a2s")
      && (r.players.list.None? <==> !opts.players)
  {
    var i := QueryInfo(server).value;
    QueryInfoFits(server);
    SteamExtraAppID(i);
  }

  /**
   * The mock server of the tests: a record sent straight back, within one
   * 1400-byte read, is reported with its own name, map, version and counts.
   */
  lemma QueryOfMock(server: Server, i: Info, ping: int, opts: Options, round: DurationRule)
    requires Encodable(i) && |EncodeInfoResponse(i)| <= ReadBufferSize
    requires server(InfoRequest()) == Some(EncodeInfoResponse(i))
    ensures Query(server, ping, opts, round).Ok?
    ensures var r := Query(server, ping, opts, round).value;
      r.name == Latin1(i.name) && r.mapName == Latin1(i.mapName) && r.version == Latin1(i.version)
      && r.players.current == i.players && r.players.max == i.maxPlayers
      && r.game == (if AppIDGame(i.appID) != "" then AppIDGame(i.appID) else "a2s")
  {
    QueryInfoOfMock(server, i);
    QueryReports(server, ping, opts, round);
  }
}
