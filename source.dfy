/**
 * `protocol/source.go`: the Source engine protocol. Its query exchange,
 * parsers and result are those of `protocol/a2s.go` (the shared `A2SWire`);
 * only the Game field differs, which it takes from the central detector
 * under the protocol name "source". It also registers thirteen game names
 * as aliases of "source".
 */
module Source {
  import opened Wrappers
  import opened Bytes
  import opened Types
  import Text
  import GameDetector
  import A2S
  import opened A2SWire

  /** `Name`, `DefaultPort` and `DefaultQueryPort`; this file declares no `Games`. */
  const Descriptor: Protocol := Protocol("source", 27015, 27015, [])

  /** The aliases `init` registers for "source", in order. */
  const Aliases: seq<string> := [
    "counter-strike-2", "counter-strike", "counter-source", "garrys-mod", "team-fortress-2",
    "left-4-dead", "left-4-dead-2", "half-life", "insurgency", "day-of-defeat",
    "project-zomboid", "satisfactory", "7-days-to-die"]

  /** Every alias is a name the detector can give a Source server, and none is "source" itself. */
  lemma AliasesAreSourceGames()
    ensures forall a :: a in Aliases ==> a in GameDetector.SourceGames && a != Descriptor.name
  {
  }

  /** The result of a successful query: as in a2s.go, with the Game named by the central detector. */
  function QueryResult(i: Info, ping: int, list: Option<seq<Player>>): ServerInfo
  {
    var r := InfoFields(i, ping).(extra := SteamExtra(i));
    r.(game := GameDetector.DetectGame(Some(r), "source"), players := r.players.(list := list))
  }

  /** `Query` (with `queryWithChallenge` and `queryPlayers`): an error exactly when the info exchange fails. */
  function Query(server: Server, ping: int, opts: Options, round: DurationRule): (r: Result<ServerInfo>)
    ensures r.Ok? <==> QueryInfo(server).Ok?
    ensures r.Err? ==> r.msg == QueryInfo(server).msg
  {
    match QueryInfo(server)
    case Err(m) => Err(m)
    case Ok(i) => Ok(QueryResult(i, ping, PlayerList(server, round, opts.players)))
  }

  /**
   * What a successful query reports: the same fields as a2s.go, with the
   * game the central detector gives: the App ID's game when the ID is
   * listed, else the classification of the description, or of the server
   * name when the description is empty.
   */
  lemma QueryReports(server: Server, ping: int, opts: Options, round: DurationRule)
    requires QueryInfo(server).Ok?
    ensures var i := QueryInfo(server).value;
      var r := Query(server, ping, opts, round).value;
      r.online && r.name == Latin1(i.name) && r.mapName == Latin1(i.mapName)
      && r.version == Latin1(i.version) && r.ping == ping
      && r.players.current == i.players && r.players.max == i.maxPlayers
      && r.extra.Keys == {"game", "app_id"} && r.extra["game"] == Latin1(i.game)
      && Text.Atoi(r.extra["app_id"]) == Some(i.appID)
      && r.game == (if GameDetector.AppIDGame(i.appID) != "" then GameDetector.AppIDGame(i.appID)
                    else GameDetector.AnalyzeGameDescription(if i.game == [] then Latin1(i.name) else Latin1(i.game)))
      && (r.players.list.None? <==> !opts.players)
  {
    var i := QueryInfo(server).value;
    QueryInfoFits(server);
    SteamExtraAppID(i);
    assert Text.NatToString(i.appID) != "";
    assert (Latin1(i.game) == "") == (i.game == []);
  }

  /** a2s.go and source.go report the same result except, possibly, for the Game field. */
  lemma SameResultAsA2S(i: Info, ping: int, list: Option<seq<Player>>, g: string)
    ensures QueryResult(i, ping, list).(game := g) == A2S.QueryResult(i, ping, list).(game := g)
  {
  }
}
