/**
 * `protocol/terraria.go`: Terraria's native probe. After an optional TShock
 * REST lookup, the client sends one fixed packet and classifies whatever
 * packet comes back by its type byte; only a chat message (0x19) is read
 * further, for player counts and a comma-separated list of names.
 */
module Terraria {
  import opened Wrappers
  import opened Bytes
  import opened Types
  import Text
  import GameDetector

  const Name: string := "terraria"

  /** `Name`, `DefaultPort`, `DefaultQueryPort` and `Games`. */
  const Descriptor: Protocol := Protocol(Name, 7777, 7777, [GameConfig(Name, 7777, 7777)])

  /** `DetectGame`: every Terraria result is the game "terraria". */
  function DetectGame(info: Option<ServerInfo>): string
  {
    Name
  }

  /** The protocol's own answer is the one the central detector gives for "terraria". */
  lemma DetectGameAgrees(info: Option<ServerInfo>)
    ensures DetectGame(info) == GameDetector.DetectGame(info, Name)
  {
  }

  /** The server-info request: a little-endian length field of 5, then packet type 1. */
  const ServerInfoRequest: seq<byte> := [0x05, 0x00, 0x00, 0x00, 0x01]

  const PlayerInfoType: byte := 0x13
  const ChatType: byte := 0x19

  /** The player limit reported when the packet does not give one. */
  const DefaultMax: int := 8

  /** The result for a packet that is not read any further. */
  function Classified(name: string): ServerInfo
  {
    Online(name, Name, "Unknown", 0, DefaultMax, Some([]))
  }

  // ---------------------------------------------------------------- the player-count patterns

  /** RE2's `\s`: tab, newline, form feed, carriage return and space. */
  predicate IsRegexSpace(c: char) {
    c as int == 9 || c as int == 10 || c as int == 12 || c as int == 13 || c as int == 32
  }

  /** The number of leading `\s` characters of `s`. */
  function SpaceRun(s: string): (k: nat)
    ensures k <= |s|
    ensures k < |s| ==> !IsRegexSpace(s[k])
  {
    if s == [] || !IsRegexSpace(s[0]) then 0 else 1 + SpaceRun(s[1..])
  }

  /**
   * `Online players?:\s*(\d+)/?(\d+)?` matched at the start of `u`: its two
   * groups, the second empty when it did not take part.
   */
  function CountLineAt(u: string): Option<(string, string)>
  {
    if "Online players:" <= u then CountGroups(u[15..])
    else if "Online player:" <= u then CountGroups(u[14..])
    else None
  }

  /** `\s*(\d+)/?(\d+)?` matched at the start of `r`. */
  function CountGroups(r: string): Option<(string, string)>
  {
    var a := SpaceRun(r);
    var d := Text.DigitRun(r[a..]);
    if d == 0 then None
    else
      var b := a + d;
      var c := if b < |r| && r[b] == '/' then b + 1 else b;
      Some((r[a..b], r[c..c + Text.DigitRun(r[c..])]))
  }

  /** `Players? online:\s*(\d+)` matched at the start of `u`: its group. */
  function OnlineLineAt(u: string): Option<string>
  {
    if "Players online:" <= u then DigitGroup(u[15..])
    else if "Player online:" <= u then DigitGroup(u[14..])
    else None
  }

  /** `\s*(\d+)` matched at the start of `r`. */
  function DigitGroup(r: string): Option<string>
  {
    var a := SpaceRun(r);
    var d := Text.DigitRun(r[a..]);
    if d == 0 then None else Some(r[a..a + d])
  }

  /** `(\d+)\s+players? currently online` matched at the start of `u`: its group. */
  function CurrentlyLineAt(u: string): Option<string>
  {
    var d := Text.DigitRun(u);
    var sp := SpaceRun(u[d..]);
    if d == 0 || sp == 0 then None
    else
      var w := u[d + sp..];
      if "players currently online" <= w || "player currently online" <= w then Some(u[..d]) else None
  }

  /** `FindStringSubmatch` of the first pattern: the leftmost match. */
  function CountLine(t: string): Option<(string, string)>
  {
    if t == [] then None else if CountLineAt(t).Some? then CountLineAt(t) else CountLine(t[1..])
  }

  /** `FindStringSubmatch` of the second pattern: the leftmost match. */
  function OnlineLine(t: string): Option<string>
  {
    if t == [] then None else if OnlineLineAt(t).Some? then OnlineLineAt(t) else OnlineLine(t[1..])
  }

  /** `FindStringSubmatch` of the third pattern: the leftmost match. */
  function CurrentlyLine(t: string): Option<string>
  {
    if t == [] then None else if CurrentlyLineAt(t).Some? then CurrentlyLineAt(t) else CurrentlyLine(t[1..])
  }

  /** `strconv.Atoi` of a matched digit run, keeping `otherwise` when the number does not fit `int`. */
  function Number(digits: string, otherwise: int): int
  {
    match Text.Atoi(digits)
    case None => otherwise
    case Some(v) => v
  }

  /**
   * The counts the three patterns leave, starting from 0 of `DefaultMax`:
   * the first may set both, the later ones the current count only, each
   * overriding the one before.
   */
  function Counts(t: string): (int, int)
  {
    var c1 := match CountLine(t)
      case None => (0, DefaultMax)
      case Some(m) => (Number(m.0, 0), if m.1 != "" then Number(m.1, DefaultMax) else DefaultMax);
    var c2 := match OnlineLine(t)
      case None => c1
      case Some(n) => (Number(n, c1.0), c1.1);
    match CurrentlyLine(t)
    case None => c2
    case Some(n) => (Number(n, c2.0), c2.1)
  }

  /** A text without an 'O' never matches the first pattern. */
  lemma {:induction false} CountLineNeedsO(t: string)
    requires 'O' !in t
    ensures CountLine(t) == None
  {
    if t != [] {
      assert t[0] != 'O';
      CountLineNeedsO(t[1..]);
    }
  }

  /** A text without a 'P' never matches the second pattern. */
  lemma {:induction false} OnlineLineNeedsP(t: string)
    requires 'P' !in t
    ensures OnlineLine(t) == None
  {
    if t != [] {
      assert t[0] != 'P';
      OnlineLineNeedsP(t[1..]);
    }
  }

  // ---------------------------------------------------------------- the name list

  /** The names of a split list: each piece trimmed, the empty ones dropped, in order. */
  function Names(parts: seq<string>): (ns: seq<string>)
    ensures |ns| <= |parts|
  {
    if parts == [] then []
    else
      var n := Text.TrimSpace(parts[|parts| - 1]);
      Names(parts[..|parts| - 1]) + (if n == "" then [] else [n])
  }

  /** A non-empty piece that neither starts nor ends with white space. */
  predicate Trimmed(p: string) {
    p != "" && !Text.IsSpace(p[0]) && !Text.IsSpace(p[|p| - 1])
  }

  /** Every name is non-empty, trimmed, and the trimmed form of one of the pieces. */
  lemma {:induction false} NamesClean(parts: seq<string>)
    ensures forall n :: n in Names(parts) ==>
      Trimmed(n) && exists p :: p in parts && n == Text.TrimSpace(p)
  {
    if parts != [] {
      var init, last := parts[..|parts| - 1], parts[|parts| - 1];
      NamesClean(init);
      assert Names(parts) == Names(init) + (if Text.TrimSpace(last) == "" then [] else [Text.TrimSpace(last)]);
      forall n | n in Names(parts) ensures Trimmed(n) && exists p :: p in parts && n == Text.TrimSpace(p) {
        if n in Names(init) {
          var p :| p in init && n == Text.TrimSpace(p);
          assert p in parts;
        } else {
          assert n == Text.TrimSpace(last) && last in parts;
        }
      }
    }
  }

  /** Pieces that are already trimmed and non-empty are kept as they are. */
  lemma {:induction false} NamesOfTrimmed(parts: seq<string>)
    requires forall i :: 0 <= i < |parts| ==> Trimmed(parts[i])
    ensures Names(parts) == parts
  {
    if parts != [] {
      var init, last := parts[..|parts| - 1], parts[|parts| - 1];
      assert forall i :: 0 <= i < |init| ==> Trimmed(init[i]) by {
        forall i | 0 <= i < |init| ensures Trimmed(init[i]) {
          assert init[i] == parts[i];
        }
      }
      NamesOfTrimmed(init);
      NamesOfTrimmedLast(parts);
    }
  }

  /** One step of the above: a trimmed last piece is kept after the names of the others. */
  lemma NamesOfTrimmedLast(parts: seq<string>)
    requires parts != [] && Trimmed(parts[|parts| - 1])
    ensures Names(parts) == Names(parts[..|parts| - 1]) + [parts[|parts| - 1]]
  {
    Text.TrimSpaceOfTrimmed(parts[|parts| - 1]);
  }

  /**
   * The list part of a chat text: the trimmed piece between the first and
   * the second ':', unless it is empty, "None" or mentions "No players".
   */
  function ListSegment(t: string): Option<string>
  {
    if ':' !in t then None
    else
      var seg := Text.TrimSpace(Text.Split(t, ':')[1]);
      if seg == "" || seg == "None" || Text.Contains(seg, "No players") then None else Some(seg)
  }

  /** The names a chat text lists, empty when it lists none. */
  function ListedNames(t: string): seq<string>
  {
    match ListSegment(t)
    case None => []
    case Some(seg) => Names(Text.Split(seg, ','))
  }

  /**
   * What a chat text reports: "Terraria Server" of unknown version, online,
   * the counts of the patterns, and the listed names, whose number, when
   * there are any, replaces the current count.
   */
  function ChatInfo(t: string): ServerInfo
  {
    var c := Counts(t);
    var names := ListedNames(t);
    Online("Terraria Server", Name, "Unknown", if |names| > 0 then |names| else c.0, c.1,
           Some(NamedPlayers(names)))
  }

  /** The fixed fields of a chat result, and where its counts and list come from. */
  lemma ChatReports(t: string)
    ensures var r := ChatInfo(t);
      r.online && r.name == "Terraria Server" && r.version == "Unknown" && r.game == Name
      && r.players.max == Counts(t).1 && r.players.list == Some(NamedPlayers(ListedNames(t)))
      && (ListedNames(t) == [] ==> r.players.current == Counts(t).0)
      && (ListedNames(t) != [] ==> r.players.current == |ListedNames(t)|)
      && (':' !in t ==> r.players.list == Some([]))
  {
    assert NamedPlayers([]) == [];
  }

  /** The list segment is the piece after the first ':', up to the next one. */
  lemma ListSegmentOf(prefix: string, seg: string, rest: string)
    requires ':' !in prefix && ':' !in seg && (rest == [] || rest[0] == ':')
    ensures var s := Text.TrimSpace(seg);
      ListSegment(prefix + ":" + seg + rest)
      == if s == "" || s == "None" || Text.Contains(s, "No players") then None else Some(s)
  {
    var t := prefix + ":" + seg + rest;
    Text.IndexOfAt(t, |prefix|, ':');
    assert t[|prefix| + 1..] == seg + rest;
    if rest != [] {
      Text.IndexOfAt(seg + rest, |seg|, ':');
      assert (seg + rest)[..|seg|] == seg;
    }
    assert Text.Split(t, ':')[1] == seg;
  }

  /** The same, when the segment runs to the end of the text. */
  lemma ListSegmentOfLast(prefix: string, seg: string)
    requires ':' !in prefix && ':' !in seg
    ensures var s := Text.TrimSpace(seg);
      ListSegment(prefix + ":" + seg)
      == if s == "" || s == "None" || Text.Contains(s, "No players") then None else Some(s)
  {
    ListSegmentOf(prefix, seg, []);
    assert prefix + ":" + seg + [] == prefix + ":" + seg;
  }

  /** A join starts where its first piece does. */
  lemma JoinFirst(parts: seq<string>, sep: char)
    requires |parts| >= 1 && parts[0] != []
    ensures var s := Text.Join(parts, sep); s != [] && s[0] == parts[0][0]
  {
  }

  /** A join ends where its last piece does. */
  lemma {:induction false} JoinLast(parts: seq<string>, sep: char)
    requires |parts| >= 1 && parts[|parts| - 1] != []
    ensures var s := Text.Join(parts, sep); var l := parts[|parts| - 1];
      s != [] && s[|s| - 1] == l[|l| - 1]
  {
    if |parts| > 1 {
      JoinLast(parts[1..], sep);
    }
  }

  /** Names that are plain words: non-empty, not padded with white space, free of ',' and ':'. */
  predicate PlainNames(ns: seq<string>) {
    forall n :: n in ns ==>
      n != [] && !Text.IsSpace(n[0]) && !Text.IsSpace(n[|n| - 1]) && ',' !in n && ':' !in n
  }

  /** The segment after the ':' of "<prefix>:<n1>,<n2>,..." is the joined names themselves. */
  lemma SegmentOfJoin(prefix: string, ns: seq<string>)
    requires ':' !in prefix && |ns| >= 1 && PlainNames(ns)
    requires Text.Join(ns, ',') != "None" && !Text.Contains(Text.Join(ns, ','), "No players")
    ensures ListSegment(prefix + ":" + Text.Join(ns, ',')) == Some(Text.Join(ns, ','))
  {
    var s := Text.Join(ns, ',');
    JoinPlain(ns);
    Text.TrimSpaceOfTrimmed(s);
    ListSegmentOfLast(prefix, s);
  }

  /** Joined plain names are trimmed and hold no ':'. */
  lemma JoinPlain(ns: seq<string>)
    requires |ns| >= 1 && PlainNames(ns)
    ensures Trimmed(Text.Join(ns, ',')) && ':' !in Text.Join(ns, ',')
  {
    assert ns[0] in ns && ns[|ns| - 1] in ns;
    JoinFirst(ns, ',');
    JoinLast(ns, ',');
    JoinNoColon(ns);
  }

  /** Splitting the joined names and trimming the pieces gives the names back. */
  lemma NamesOfJoin(ns: seq<string>)
    requires |ns| >= 1 && PlainNames(ns)
    ensures Names(Text.Split(Text.Join(ns, ','), ',')) == ns
  {
    Text.SplitJoin(ns, ',');
    forall i | 0 <= i < |ns| ensures Trimmed(ns[i]) {
      assert ns[i] in ns;
    }
    NamesOfTrimmed(ns);
  }

  /**
   * A chat text "<prefix>:<n1>,<n2>,..." lists exactly those names, and
   * their number becomes the current count.
   */
  lemma ListedPlayers(prefix: string, ns: seq<string>)
    requires ':' !in prefix && |ns| >= 1 && PlainNames(ns)
    requires Text.Join(ns, ',') != "None" && !Text.Contains(Text.Join(ns, ','), "No players")
    ensures ListedNames(prefix + ":" + Text.Join(ns, ',')) == ns
    ensures ChatInfo(prefix + ":" + Text.Join(ns, ',')).players.list == Some(NamedPlayers(ns))
    ensures ChatInfo(prefix + ":" + Text.Join(ns, ',')).players.current == |ns|
  {
    SegmentOfJoin(prefix, ns);
    NamesOfJoin(ns);
  }

  lemma {:induction false} JoinNoColon(ns: seq<string>)
    requires |ns| >= 1 && forall n :: n in ns ==> ':' !in n
    ensures ':' !in Text.Join(ns, ',')
  {
    if |ns| > 1 {
      assert forall n :: n in ns[1..] ==> n in ns;
      JoinNoColon(ns[1..]);
    }
  }

  /**
   * "Online players:<c>/<m>" sets the limit to m, but the text holds a ':',
   * so "<c>/<m>" is then read as the one listed player and the current
   * count becomes 1.
   */
  lemma CountLineBecomesPlayer(c: string, m: string)
    requires c != [] && m != [] && Text.AllDigits(c) && Text.AllDigits(m)
    ensures ChatInfo("Online players:" + (c + "/" + m)).players
         == PlayerInfo(1, Number(m, DefaultMax), Some([Player(c + "/" + m, 0, 0)]))
  {
    var v := c + "/" + m;
    SlashedDigits(c, m);
    CountsOfSlashed(c, m);
    ListOfSlashed(c, m);
    assert NamedPlayers([v]) == [Player(v, 0, 0)];
  }

  /** "<c>/<m>" holds digits and one '/', and starts and ends with a digit. */
  lemma SlashedDigits(c: string, m: string)
    requires c != [] && m != [] && Text.AllDigits(c) && Text.AllDigits(m)
    ensures var v := c + "/" + m;
      v[0] == c[0] && v[|v| - 1] == m[|m| - 1]
      && forall i :: 0 <= i < |v| ==> Text.IsDigit(v[i]) || v[i] == '/'
  {
    var v := c + "/" + m;
    forall i | 0 <= i < |v| ensures Text.IsDigit(v[i]) || v[i] == '/' {
      if i > |c| {
        assert v[i] == m[i - |c| - 1];
      }
    }
  }

  /** The letters of the first pattern's words. */
  lemma OnlinePlayersWords(w: string)
    requires w == "Online players:"
    ensures forall i :: 0 <= i < |w| ==> w[i] != 'P' && !Text.IsDigit(w[i])
  {
  }

  lemma OnlinePlayersColon()
    ensures "Online players:" == "Online players" + ":"
  {
  }

  lemma PrefixWords(w: string)
    requires w == "Online players"
    ensures forall i :: 0 <= i < |w| ==> w[i] != ':'
  {
  }

  /** A text in which no digit is followed by white space never matches the third pattern. */
  lemma {:induction false} CurrentlyLineNeedsSpace(t: string)
    requires forall i :: 0 < i < |t| && IsRegexSpace(t[i]) ==> !Text.IsDigit(t[i - 1])
    ensures CurrentlyLine(t) == None
  {
    if t != [] {
      var d := Text.DigitRun(t);
      if 0 < d < |t| {
        assert Text.IsDigit(t[..d][d - 1]);
        assert t[d..][0] == t[d];
      }
      CurrentlyLineNeedsSpace(t[1..]);
    }
  }

  /** The first pattern reads c and m out of "Online players:<c>/<m>"; the others find nothing. */
  lemma CountsOfSlashed(c: string, m: string)
    requires c != [] && m != [] && Text.AllDigits(c) && Text.AllDigits(m)
    ensures Counts("Online players:" + (c + "/" + m)) == (Number(c, 0), Number(m, DefaultMax))
  {
    CountLineOfSlashed(c, m);
    OtherLinesOfSlashed(c, m);
  }

  lemma CountLineOfSlashed(c: string, m: string)
    requires c != [] && m != [] && Text.AllDigits(c) && Text.AllDigits(m)
    ensures CountLine("Online players:" + (c + "/" + m)) == Some((c, m))
  {
    var t := "Online players:" + (c + "/" + m);
    assert "Online players:" <= t && t[15..] == c + "/" + m;
    CountGroupsOfSlashed(c, m);
    CountLineLeftmost(t);
  }

  /** The groups of the first pattern read "<c>/<m>" as c and m. */
  lemma CountGroupsOfSlashed(c: string, m: string)
    requires c != [] && m != [] && Text.AllDigits(c) && Text.AllDigits(m)
    ensures CountGroups(c + "/" + m) == Some((c, m))
  {
    var v := c + "/" + m;
    assert SpaceRun(v) == 0 && v[0..] == v;
    Text.DigitRunOfDigits(c, "/" + m);
    assert v == c + ("/" + m);
    assert v[..|c|] == c && v[|c|] == '/';
    assert m + [] == m;
    Text.DigitRunOfDigits(m, []);
    assert v[|c| + 1..] == m;
    assert v[|c| + 1..|c| + 1 + |m|] == m;
  }

  /** A match at the very start is the leftmost one. */
  lemma CountLineLeftmost(t: string)
    requires CountLineAt(t).Some?
    ensures CountLine(t) == CountLineAt(t)
  {
  }

  lemma OtherLinesOfSlashed(c: string, m: string)
    requires c != [] && m != [] && Text.AllDigits(c) && Text.AllDigits(m)
    ensures OnlineLine("Online players:" + (c + "/" + m)) == None
    ensures CurrentlyLine("Online players:" + (c + "/" + m)) == None
  {
    var w := "Online players:";
    var v := c + "/" + m;
    var t := w + v;
    SlashedDigits(c, m);
    OnlinePlayersWords(w);
    forall i | 0 <= i < |t|
      ensures t[i] != 'P' && (i < 15 ==> !Text.IsDigit(t[i])) && (i >= 15 ==> !IsRegexSpace(t[i]))
    {
      if i >= 15 {
        assert t[i] == v[i - 15];
      }
    }
    OnlineLineNeedsP(t);
    CurrentlyLineNeedsSpace(t);
  }

  /** The list segment of "Online players:<c>/<m>" is "<c>/<m>", one name. */
  lemma ListOfSlashed(c: string, m: string)
    requires c != [] && m != [] && Text.AllDigits(c) && Text.AllDigits(m)
    ensures ListedNames("Online players:" + (c + "/" + m)) == [c + "/" + m]
  {
    var v := c + "/" + m;
    SlashedPlain(c, m);
    assert ':' !in "Online players" by {
      PrefixWords("Online players");
    }
    OnlinePlayersColon();
    SingleListed("Online players", v);
  }

  /** "<c>/<m>" is one plain name: trimmed, with no separator and no marker of an empty list. */
  lemma SlashedPlain(c: string, m: string)
    requires c != [] && m != [] && Text.AllDigits(c) && Text.AllDigits(m)
    ensures var v := c + "/" + m;
      Trimmed(v) && ':' !in v && ',' !in v && v != "None" && !Text.Contains(v, "No players")
  {
    var v := c + "/" + m;
    SlashedDigits(c, m);
    assert ':' !in v && ',' !in v;
    assert !Text.Contains(v, "No players") by {
      forall i | 0 <= i <= |v| - 10 ensures !("No players" <= v[i..]) {
        assert v[i..][0] == v[i];
      }
    }
    assert v != "None" by {
      assert v[0] == c[0];
    }
  }

  /** A text whose list segment is one plain name lists exactly that name. */
  lemma SingleListed(prefix: string, v: string)
    requires ':' !in prefix && Trimmed(v) && ':' !in v && ',' !in v
    requires v != "None" && !Text.Contains(v, "No players")
    ensures ListedNames(prefix + ":" + v) == [v]
  {
    Text.TrimSpaceOfTrimmed(v);
    ListSegmentOfLast(prefix, v);
    assert Text.Split(v, ',') == [v];
    assert Names([v]) == [v] by {
      assert [v][..0] == [];
    }
  }

  /** "<c> players currently online", with no ':' in it, sets the current count to c and lists nobody. */
  lemma CurrentlyOnlineCount(c: string)
    requires c != [] && Text.AllDigits(c) && Text.Atoi(c).Some?
    ensures ChatInfo(c + " players currently online").players
         == PlayerInfo(Text.Atoi(c).value, DefaultMax, Some([]))
  {
    var t := c + " players currently online";
    CurrentlyOnlineLines(c);
    OnlyCurrently(t, c);
  }

  /** Of the three patterns, only the third matches "<c> players currently online", and no ':' occurs. */
  lemma CurrentlyOnlineLines(c: string)
    requires c != [] && Text.AllDigits(c)
    ensures var t := c + " players currently online";
      CountLine(t) == None && OnlineLine(t) == None && CurrentlyLine(t) == Some(c) && ':' !in t
  {
    var w := " players currently online";
    var t := c + w;
    CurrentlyWords(w);
    assert CurrentlyLine(t) == Some(c) by {
      Text.DigitRunOfDigits(c, w);
      assert t[..|c|] == c && t[|c|..] == w;
      assert t[|c| + 1..] == w[1..];
      assert CurrentlyLineAt(t) == Some(c);
    }
    NotInDigits(c, 'O');
    NotInDigits(c, 'P');
    NotInDigits(c, ':');
    CountLineNeedsO(t);
    OnlineLineNeedsP(t);
  }

  /** A text matching only the third pattern, with no list, reports that count, the default limit and nobody. */
  lemma OnlyCurrently(t: string, c: string)
    requires CountLine(t) == None && OnlineLine(t) == None && CurrentlyLine(t) == Some(c) && ':' !in t
    requires Text.Atoi(c).Some?
    ensures ChatInfo(t).players == PlayerInfo(Text.Atoi(c).value, DefaultMax, Some([]))
  {
    assert ListedNames(t) == [];
    assert NamedPlayers([]) == [];
  }

  /** The letters of the third pattern's words. */
  lemma CurrentlyWords(w: string)
    requires w == " players currently online"
    ensures forall i :: 0 <= i < |w| ==> w[i] != 'O' && w[i] != 'P' && w[i] != ':'
    ensures SpaceRun(w) == 1 && !Text.IsDigit(w[0])
  {
    CurrentlyLetters(w);
    assert |w| >= 2 && w[0] == ' ' && w[1] == 'p';
    SpaceRunOne(w);
  }

  lemma CurrentlyLetters(w: string)
    requires w == " players currently online"
    ensures forall i :: 0 <= i < |w| ==> w[i] != 'O' && w[i] != 'P' && w[i] != ':'
  {
  }

  /** One white-space character, then another character, is a run of one. */
  lemma SpaceRunOne(s: string)
    requires |s| >= 2 && IsRegexSpace(s[0]) && !IsRegexSpace(s[1])
    ensures SpaceRun(s) == 1
  {
    assert s[1..][0] == s[1];
  }

  /** A run of digits holds no other character. */
  lemma NotInDigits(c: string, x: char)
    requires Text.AllDigits(c) && !Text.IsDigit(x)
    ensures x !in c
  {
  }

  // ---------------------------------------------------------------- the response

  /**
   * `parseResponse`: the 4 length bytes are skipped and byte 4 is the
   * packet type; a chat message must go on with a player ID, a text length
   * L and L bytes of text.
   */
  function Response(data: seq<byte>): Result<ServerInfo>
  {
    if |data| < 5 then Err("response too short")
    else if data[4] == PlayerInfoType then Ok(Classified("Terraria Server (Player Info)"))
    else if data[4] != ChatType then Ok(Classified("Terraria Server (Type: 0x" + Text.Hex2(data[4]) + ")"))
    else if |data| == 5 then Err("missing player ID")
    else if |data| == 6 then Err("missing text length")
    else if 7 + data[6] as int > |data| then Err("text length exceeds data")
    else Ok(ChatInfo(Latin1(data[7..7 + data[6] as int])))
  }

  /** The offset-advancing parser, with the chat text read by `ReadChat`. */
  method ParseResponse(data: seq<byte>) returns (r: Result<ServerInfo>)
    ensures r == Response(data)
  {
    if |data| < 5 {
      return Err("response too short");
    }
    var offset := 4;
    var packetType := data[offset];
    offset := offset + 1;
    if packetType == PlayerInfoType {
      return Ok(Classified("Terraria Server (Player Info)"));
    } else if packetType != ChatType {
      return Ok(Classified("Terraria Server (Type: 0x" + Text.Hex2(packetType) + ")"));
    }
    if offset >= |data| {
      return Err("missing player ID");
    }
    offset := offset + 1;
    if offset >= |data| {
      return Err("missing text length");
    }
    var textLength := data[offset] as int;
    offset := offset + 1;
    if offset + textLength > |data| {
      return Err("text length exceeds data");
    }
    var info := ReadChat(Latin1(data[offset..offset + textLength]));
    return Ok(info);
  }

  /** The chat part of `parseResponse`: the three patterns in turn, then the name list. */
  method ReadChat(text: string) returns (info: ServerInfo)
    ensures info == ChatInfo(text)
  {
    var counts := ReadCounts(text);
    info := Online("Terraria Server", Name, "Unknown", counts.0, counts.1, Some([]));
    assert NamedPlayers([]) == [];
    if ':' in text {
      var parts := Text.Split(text, ':');
      var playerList := Text.TrimSpace(parts[1]);
      if playerList != "" && playerList != "None" && !Text.Contains(playerList, "No players") {
        var list := CollectPlayers(Text.Split(playerList, ','));
        info := info.(players := info.players.(list := Some(list)));
        if |list| > 0 {
          info := info.(players := info.players.(current := |list|));
        }
      }
    }
  }

  /** The three patterns, each overriding the counts the one before left. */
  method ReadCounts(text: string) returns (counts: (int, int))
    ensures counts == Counts(text)
  {
    var current, max := 0, DefaultMax;
    var m1 := CountLine(text);
    if m1.Some? {
      current := Number(m1.value.0, current);
      if m1.value.1 != "" {
        max := Number(m1.value.1, max);
      }
    }
    var m2 := OnlineLine(text);
    if m2.Some? {
      current := Number(m2.value, current);
    }
    var m3 := CurrentlyLine(text);
    if m3.Some? {
      current := Number(m3.value, current);
    }
    counts := (current, max);
  }

  /** The loop that appends one player per non-empty trimmed piece. */
  method CollectPlayers(parts: seq<string>) returns (list: seq<Player>)
    ensures list == NamedPlayers(Names(parts))
  {
    list := [];
    for i := 0 to |parts|
      invariant list == NamedPlayers(Names(parts[..i]))
    {
      var name := Text.TrimSpace(parts[i]);
      NamedStep(parts, i);
      if name != "" {
        list := list + [Player(name, 0, 0)];
      }
    }
    assert parts[..|parts|] == parts;
  }

  /** One more piece adds its player when its trimmed form is not empty. */
  lemma NamedStep(parts: seq<string>, i: nat)
    requires i < |parts|
    ensures var n := Text.TrimSpace(parts[i]);
      NamedPlayers(Names(parts[..i + 1]))
      == NamedPlayers(Names(parts[..i])) + (if n == "" then [] else [Player(n, 0, 0)])
  {
    assert parts[..i + 1][..i] == parts[..i];
    var n := Text.TrimSpace(parts[i]);
    var a := Names(parts[..i]);
    var b := Names(parts[..i + 1]);
    if n != "" {
      assert b == a + [n];
    } else {
      assert b == a;
    }
  }

  /**
   * Which packets are rejected: fewer than 5 bytes, or a chat message cut
   * short before its player ID, its text length or the end of its text.
   * Every other packet type is accepted whatever follows it.
   */
  lemma ResponseErrors(data: seq<byte>)
    ensures Response(data).Err? <==>
      |data| < 5 || (data[4] == ChatType && (|data| < 7 || 7 + data[6] as int > |data|))
    ensures Response(data).Err? && |data| >= 5 ==> data[4] == ChatType
    ensures Response(data) == Err("response too short") <==> |data| < 5
  {
  }

  /** The length field is never read: bytes 0 to 3 do not change the outcome. */
  lemma LengthFieldIgnored(h1: seq<byte>, h2: seq<byte>, body: seq<byte>)
    requires |h1| == 4 && |h2| == 4
    ensures Response(h1 + body) == Response(h2 + body)
  {
    var a, b := h1 + body, h2 + body;
    assert a[4..] == body && b[4..] == body;
    if |body| > 0 {
      assert a[4] == b[4];
    }
    if |body| > 2 {
      assert a[6] == b[6];
      if 7 + a[6] as int <= |a| {
        assert a[7..7 + a[6] as int] == b[7..7 + b[6] as int];
      }
    }
  }

  /**
   * A packet of any type but 0x13 and 0x19 is accepted as a Terraria server
   * named after its type in two lower-case hex digits, 0 of 8 players and
   * nobody listed; different types get different names.
   */
  lemma OtherTypes(data: seq<byte>, other: seq<byte>)
    requires |data| >= 5 && data[4] != PlayerInfoType && data[4] != ChatType
    requires |other| >= 5 && other[4] != PlayerInfoType && other[4] != ChatType
    ensures Response(data).Ok? && Response(data).value.online
    ensures Response(data).value.name == "Terraria Server (Type: 0x" + Text.Hex2(data[4]) + ")"
    ensures Response(data).value.players == PlayerInfo(0, DefaultMax, Some([]))
    ensures Response(data).value.name == Response(other).value.name ==> data[4] == other[4]
  {
    var p := "Terraria Server (Type: 0x";
    var x, y := Response(data).value.name, Response(other).value.name;
    if x == y {
      assert x[|p|..|p| + 2] == Text.Hex2(data[4]);
      assert y[|p|..|p| + 2] == Text.Hex2(other[4]);
      Text.Hex2Injective(data[4] as nat, other[4] as nat);
    }
  }

  /** A player-info packet (0x13) is accepted with fixed fields, whatever follows its type. */
  lemma PlayerInfoPacket(data: seq<byte>)
    requires |data| >= 5 && data[4] == PlayerInfoType
    ensures Response(data) == Ok(Online("Terraria Server (Player Info)", "terraria", "Unknown", 0, 8, Some([])))
  {
  }

  /** A whole chat frame: the text is the L bytes after the length byte L, and the rest is ignored. */
  lemma ChatFrame(header: seq<byte>, id: byte, text: seq<byte>, rest: seq<byte>)
    requires |header| == 4 && |text| < 0x100
    ensures Response(header + [ChatType, id, |text| as byte] + text + rest) == Ok(ChatInfo(Latin1(text)))
  {
    var d := header + [ChatType, id, |text| as byte] + text + rest;
    assert d[4] == ChatType && d[6] == |text| as byte;
    ChatResponse(d);
    assert d[7..7 + |text|] == text;
  }

  /** A complete chat message is read as the text its length byte delimits. */
  lemma ChatResponse(d: seq<byte>)
    requires |d| >= 7 && d[4] == ChatType && 7 + d[6] as int <= |d|
    ensures Response(d) == Ok(ChatInfo(Latin1(d[7..7 + d[6] as int])))
  {
  }

  /** The probe itself would be classified as a packet of type 0x01. */
  lemma ProbeFrame()
    ensures LE32(ServerInfoRequest[..4]) == 5 && ServerInfoRequest[4] == 0x01
    ensures Response(ServerInfoRequest) == Ok(Classified("Terraria Server (Type: 0x01)"))
  {
    assert Text.Hex2(1) == "01";
    assert "Terraria Server (Type: 0x" + Text.Hex2(1) + ")" == "Terraria Server (Type: 0x01)";
  }

  // ---------------------------------------------------------------- the query

  /** What one `conn.Read` into the 1024-byte buffer returns of a reply. */
  function FirstRead(reply: seq<byte>): (b: seq<byte>)
    ensures |b| <= 1024 && b <= reply
    ensures |reply| <= 1024 ==> b == reply
  {
    if |reply| <= 1024 then reply else reply[..1024]
  }

  /**
   * `Query` after the connection is set up: a TShock answer, when there is
   * one, is taken as it is; otherwise the probe is sent and the first read
   * of the reply is classified. `server` gives the reply to the probe or
   * the read error; `ping` is the measured round trip.
   */
  function Query(tshock: Option<ServerInfo>, server: seq<byte> -> Result<seq<byte>>, ping: int): (r: Result<ServerInfo>)
    ensures r.Ok? ==> r.value.ping == ping
  {
    if tshock.Some? then Ok(tshock.value.(ping := ping))
    else match server(ServerInfoRequest)
      case Err(m) => Err("read failed: " + m)
      case Ok(reply) =>
        match Response(FirstRead(reply))
        case Err(m) => Err("parse failed: " + m)
        case Ok(info) => Ok(info.(ping := ping))
  }

  /** Without TShock, the native probe decides: its errors are wrapped, its results reported as the game "terraria". */
  lemma QueryNative(server: seq<byte> -> Result<seq<byte>>, ping: int)
    requires server(ServerInfoRequest).Ok? && |server(ServerInfoRequest).value| <= 1024
    ensures var reply := server(ServerInfoRequest).value;
      var r := Query(None, server, ping);
      (r.Err? <==> Response(reply).Err?)
      && (r.Err? ==> r.msg == "parse failed: " + Response(reply).msg)
      && (r.Ok? ==> r.value == Response(reply).value.(ping := ping) && r.value.online && r.value.game == Name)
  {
    var reply := server(ServerInfoRequest).value;
    if Response(reply).Ok? && reply[4] == ChatType {
      ChatReports(Latin1(reply[7..7 + reply[6] as int]));
    }
  }
}
