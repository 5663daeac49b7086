/**
 * The central game classifier of `protocol/gamedetector.go`: a protocol
 * name and a query result in, a game identifier out. For the Source family
 * the Steam application ID is trusted first, then the game description (or
 * the server name when there is none) is searched, case-insensitively, for
 * an ordered list of keywords.
 */
module GameDetector {
  import opened Wrappers
  import opened Types
  import Text

  // ---------------------------------------------------------------- application IDs

  /** The `switch` of `detectByAppID`: "" for an ID it does not list. */
  function AppIDGame(id: int): string
  {
    match id
    case 730 => "counter-strike"
    case 240 => "counter-source"
    case 4000 => "garrys-mod"
    case 440 => "team-fortress-2"
    case 550 => "left-4-dead-2"
    case 500 => "left-4-dead"
    case 320 => "half-life"
    case 300 => "day-of-defeat-source"
    case 252490 => "rust"
    case 346110 => "ark-survival-evolved"
    case 222880 => "insurgency"
    case 108600 => "project-zomboid"
    case 526870 => "satisfactory"
    case 251570 => "7-days-to-die"
    case 892970 => "valheim"
    case 107410 => "arma-3"
    case 221100 => "dayz"
    case 489940 => "battalion-1944"
    case _ => ""
  }

  /** The IDs of the table, as a set. */
  const AppIDs: set<int> := {730, 240, 4000, 440, 550, 500, 320, 300, 252490, 346110, 222880,
                             108600, 526870, 251570, 892970, 107410, 221100, 489940}

  /** The table answers exactly for the listed IDs. */
  lemma AppIDGameListed(id: int)
    ensures AppIDGame(id) != "" <==> id in AppIDs
  {
  }

  /** `detectByAppID`: the number `fmt.Sscanf` reads from the text, looked up; "" when there is none. */
  function DetectByAppID(appID: string): (g: string)
    ensures g != "" ==> Text.ScanInt(appID).Some? && Text.ScanInt(appID).value in AppIDs
  {
    match Text.ScanInt(appID)
    case None => ""
    case Some(id) => AppIDGameListed(id); AppIDGame(id)
  }

  /** The decimal rendering of a listed ID is recognised, whatever follows it. */
  lemma DetectByAppIDOfNumber(id: nat)
    requires id <= Text.INT64_MAX
    ensures DetectByAppID(Text.NatToString(id)) == AppIDGame(id)
  {
    Text.ScanIntOfNatToString(id, "");
    assert Text.NatToString(id) + "" == Text.NatToString(id);
  }

  /** Worked cases: 730 and 4000 are known. */
  lemma DetectByAppIDExamples()
    ensures DetectByAppID("730") == "counter-strike"
    ensures DetectByAppID("4000") == "garrys-mod"
  {
    DetectByAppIDOfNumber(730);
    assert Text.NatToString(730) == "730";
    DetectByAppIDOfNumber(4000);
    assert Text.NatToString(4000) == "4000";
  }

  /** Worked cases: 0 and text that is not a number are not known. */
  lemma DetectByAppIDUnknown()
    ensures DetectByAppID("0") == ""
    ensures DetectByAppID("abc") == ""
  {
    DetectByAppIDOfNumber(0);
    assert Text.NatToString(0) == "0";
    Text.ScanIntOfNonNumber("abc");
  }

  // ---------------------------------------------------------------- descriptions

  /** Every identifier the Source classification can produce. */
  const SourceGames: set<string> := {
    "counter-strike-2", "counter-strike", "counter-source", "garrys-mod", "team-fortress-2",
    "left-4-dead-2", "left-4-dead", "half-life", "day-of-defeat", "day-of-defeat-source",
    "rust", "ark-survival-evolved", "insurgency", "project-zomboid", "satisfactory",
    "7-days-to-die", "valheim", "arma-3", "dayz", "battalion-1944", "source"}

  /** One branch of the `analyzeGameDescription` if-chain: its keywords and the game it names. */
  datatype Rule = Rule(keywords: seq<string>, game: string)

  /** The number of branches of the chain. */
  const RuleCount: nat := 19

  /** The branches of the chain, in the order they are tried. */
  const Rules: seq<Rule> := [
    Rule(["counter-strike 2", "cs2"], "counter-strike-2"),
    Rule(["counter-strike: global offensive", "csgo"], "counter-strike"),
    Rule(["counter-strike", "cs:"], "counter-strike"),
    Rule(["garrysmod", "garry", "gmod"], "garrys-mod"),
    Rule(["team fortress", "tf2"], "team-fortress-2"),
    Rule(["left 4 dead 2", "l4d2"], "left-4-dead-2"),
    Rule(["left 4 dead", "l4d"], "left-4-dead"),
    Rule(["rust"], "rust"),
    Rule(["ark", "survival evolved"], "ark-survival-evolved"),
    Rule(["insurgency"], "insurgency"),
    Rule(["day of defeat", "dod"], "day-of-defeat"),
    Rule(["project zomboid", "zomboid"], "project-zomboid"),
    Rule(["satisfactory"], "satisfactory"),
    Rule(["7 days to die", "7dtd"], "7-days-to-die"),
    Rule(["valheim"], "valheim"),
    Rule(["arma 3", "arma3"], "arma-3"),
    Rule(["dayz", "day z"], "dayz"),
    Rule(["battalion 1944", "battalion1944"], "battalion-1944"),
    Rule(["half-life", "hl2"], "half-life")]

  /** Branch `i` of the chain. */
  function RuleAt(i: nat): (r: Rule)
    requires i < RuleCount
    ensures r.game in SourceGames && r.game != "source"
  {
    RulesGames();
    Rules[i]
  }

  /** Every branch names a Source game other than "source" itself. */
  lemma RulesGames()
    ensures |Rules| == RuleCount
    ensures forall i :: 0 <= i < |Rules| ==> Rules[i].game in SourceGames && Rules[i].game != "source"
  {
  }

  /** `strings.Contains(s, k)` for some keyword `k` of the branch. */
  predicate Matches(s: string, i: nat)
    requires i < RuleCount
  {
    exists k :: k in RuleAt(i).keywords && Text.Contains(s, k)
  }

  /** The game of the first branch from `i` on whose keyword occurs in `s`; "source" when none does. */
  function FirstMatch(s: string, i: nat): (g: string)
    requires i <= RuleCount
    ensures g in SourceGames
    decreases RuleCount - i
  {
    if i == RuleCount then "source"
    else if Matches(s, i) then RuleAt(i).game
    else FirstMatch(s, i + 1)
  }

  /**
   * `analyzeGameDescription`: "source" for an empty description, otherwise
   * the first branch with a keyword in the lower-cased text, or "source"
   * when no branch has one.
   */
  function AnalyzeGameDescription(desc: string): (g: string)
    ensures g in SourceGames
  {
    if desc == "" then "source" else FirstMatch(Text.ToLower(desc), 0)
  }

  /** The answer is "source" exactly when no branch from `m` on matches. */
  lemma {:induction false} FirstMatchSource(s: string, m: nat)
    requires m <= RuleCount
    ensures FirstMatch(s, m) == "source" <==> forall i :: m <= i < RuleCount ==> !Matches(s, i)
    decreases RuleCount - m
  {
    if m < RuleCount {
      if Matches(s, m) {
        assert FirstMatch(s, m) == RuleAt(m).game != "source";
      } else {
        FirstMatchSource(s, m + 1);
        assert FirstMatch(s, m) == FirstMatch(s, m + 1);
      }
    }
  }

  /** Otherwise it is the game of the first matching branch: every earlier branch fails and that one matches. */
  lemma {:induction false} FirstMatchIsFirst(s: string, m: nat)
    requires m <= RuleCount
    ensures FirstMatch(s, m) != "source" ==>
      exists i :: m <= i < RuleCount && Matches(s, i) && FirstMatch(s, m) == RuleAt(i).game
              && forall k :: m <= k < i ==> !Matches(s, k)
    decreases RuleCount - m
  {
    if m < RuleCount {
      if Matches(s, m) {
        assert m <= m < RuleCount && Matches(s, m) && FirstMatch(s, m) == RuleAt(m).game;
      } else {
        FirstMatchIsFirst(s, m + 1);
        if FirstMatch(s, m) != "source" {
          var i :| m + 1 <= i < RuleCount && Matches(s, i) && FirstMatch(s, m + 1) == RuleAt(i).game
                   && forall k :: m + 1 <= k < i ==> !Matches(s, k);
          assert forall k :: m <= k < i ==> !Matches(s, k);
        }
      }
    }
  }

  /** A matching branch is never passed over: the answer comes from it or from an earlier branch. */
  lemma {:induction false} FirstMatchNoLater(s: string, m: nat, i: nat)
    requires m <= i < RuleCount && Matches(s, i)
    ensures exists k :: m <= k <= i && FirstMatch(s, m) == RuleAt(k).game
    decreases i - m
  {
    if !Matches(s, m) {
      FirstMatchNoLater(s, m + 1, i);
    }
  }

  /** The description is classified the same whatever its letter case. */
  lemma AnalyzeCaseInsensitive(desc: string)
    ensures AnalyzeGameDescription(desc) == AnalyzeGameDescription(Text.ToLower(desc))
  {
    Text.ToLowerIdempotent(desc);
  }

  /** "counter-strike 2" and "cs2" are caught before the plain Counter-Strike branches. */
  lemma CounterStrike2First(desc: string)
    requires Text.Contains(Text.ToLower(desc), "counter-strike 2") || Text.Contains(Text.ToLower(desc), "cs2")
    ensures AnalyzeGameDescription(desc) == "counter-strike-2"
  {
    var s := Text.ToLower(desc);
    assert Matches(s, 0) by {
      if Text.Contains(s, "cs2") {
        assert "cs2" in RuleAt(0).keywords;
      } else {
        assert "counter-strike 2" in RuleAt(0).keywords;
      }
    }
  }

  /** A description naming Left 4 Dead 2 is never taken for Left 4 Dead. */
  lemma LeftForDead2NotLeftForDead(desc: string)
    requires Text.Contains(Text.ToLower(desc), "left 4 dead 2") || Text.Contains(Text.ToLower(desc), "l4d2")
    ensures AnalyzeGameDescription(desc) != "left-4-dead"
  {
    var s := Text.ToLower(desc);
    assert Matches(s, 5) by {
      if Text.Contains(s, "l4d2") {
        assert "l4d2" in RuleAt(5).keywords;
      } else {
        assert "left 4 dead 2" in RuleAt(5).keywords;
      }
    }
    FirstMatchNoLater(s, 0, 5);
    var k :| 0 <= k <= 5 && FirstMatch(s, 0) == RuleAt(k).game;
    assert RuleAt(k).game != "left-4-dead";
  }

  // ---------------------------------------------------------------- the detector

  /** A value of `Extra`, with "" for a missing key as Go's map lookup gives. */
  function ExtraValue(info: ServerInfo, key: string): (v: string)
    ensures key !in info.extra ==> v == ""
  {
    if key in info.extra then info.extra[key] else ""
  }

  /**
   * `detectSourceGame`: a known application ID decides; otherwise the game
   * description is classified, or the server name when the description is empty.
   */
  function DetectSourceGame(info: ServerInfo): (g: string)
    ensures g in SourceGames
  {
    var appID := ExtraValue(info, "app_id");
    var desc := ExtraValue(info, "game");
    if appID != "" && DetectByAppID(appID) != "" then DetectByAppID(appID)
    else AnalyzeGameDescription(if desc == "" then info.name else desc)
  }

  /**
   * `DetectGame` (and `DetectGameFromResponse`, which calls it): the protocol
   * name for a missing or offline result, a fixed answer for Minecraft and
   * Terraria, the Source classification for "source" and "rust", and the
   * protocol name for every other protocol.
   */
  function DetectGame(info: Option<ServerInfo>, protocolName: string): (g: string)
    ensures info.None? || !info.value.online ==> g == protocolName
    ensures g == protocolName || g in SourceGames
  {
    if info.None? || !info.value.online then protocolName
    else if protocolName == "minecraft" then "minecraft"
    else if protocolName == "terraria" then "terraria"
    else if protocolName == "source" || protocolName == "rust" then DetectSourceGame(info.value)
    else protocolName
  }

  /** Only "source" and "rust" results are ever reclassified; every other protocol keeps its name. */
  lemma DetectGameKeepsName(info: Option<ServerInfo>, protocolName: string)
    requires protocolName != "source" && protocolName != "rust"
    ensures DetectGame(info, protocolName) == protocolName
  {
  }

  /** A known application ID wins over the description and the server name. */
  lemma AppIDPrecedence(info: ServerInfo, protocolName: string, desc: string, name: string)
    requires info.online && (protocolName == "source" || protocolName == "rust")
    requires "app_id" in info.extra && DetectByAppID(info.extra["app_id"]) != ""
    ensures DetectGame(Some(info), protocolName) == DetectByAppID(info.extra["app_id"])
    ensures DetectGame(Some(info.(name := name, extra := info.extra["game" := desc])), protocolName)
         == DetectGame(Some(info), protocolName)
  {
    var other := info.(name := name, extra := info.extra["game" := desc]);
    assert ExtraValue(other, "app_id") == info.extra["app_id"];
  }

  /** Without a usable application ID or description, the server name is classified. */
  lemma NameFallback(info: ServerInfo, protocolName: string)
    requires info.online && (protocolName == "source" || protocolName == "rust")
    requires DetectByAppID(ExtraValue(info, "app_id")) == ""
    requires ExtraValue(info, "game") == ""
    ensures DetectGame(Some(info), protocolName) == AnalyzeGameDescription(info.name)
  {
  }
}
