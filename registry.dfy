/**
 * `protocol/registry.go`: the registry of protocols, two maps updated in
 * place: protocols by name, and aliases (game names) to protocol names.
 * Lookups go through the protocols first and the aliases second.
 */
module Registry {
  import opened Wrappers
  import opened Types

  /** `DiscoveryTimeout`, in milliseconds. */
  const DiscoveryTimeout: nat := 300

  /** `getTimeout`: the short discovery timeout in discovery mode, the configured one otherwise. */
  function Timeout(opts: Options): (t: nat)
    ensures opts.discoveryMode ==> t == DiscoveryTimeout
    ensures !opts.discoveryMode ==> t == opts.timeout
  {
    if opts.discoveryMode then DiscoveryTimeout else opts.timeout
  }

  /** The game names `Register` turns into aliases of the protocol called `name`. */
  function AliasNames(games: seq<GameConfig>, name: string): set<string>
  {
    set g | g in games && g.name != "" && g.name != name :: g.name
  }

  /** The alias map after `Register`'s loop has visited `games`, in order. */
  function AddGameAliases(aliases: map<string, string>, games: seq<GameConfig>, name: string): map<string, string>
  {
    if games == [] then aliases
    else
      var a := AddGameAliases(aliases, games[..|games| - 1], name);
      var g := games[|games| - 1];
      if g.name != "" && g.name != name then a[g.name := name] else a
  }

  /**
   * Registering adds exactly the protocol's other, non-empty game names as
   * aliases of it; every other alias is kept as it was.
   */
  lemma {:induction false} AddGameAliasesSpec(aliases: map<string, string>, games: seq<GameConfig>, name: string)
    ensures var r := AddGameAliases(aliases, games, name);
      r.Keys == aliases.Keys + AliasNames(games, name)
      && (forall k :: k in AliasNames(games, name) ==> r[k] == name)
      && (forall k :: k in aliases && k !in AliasNames(games, name) ==> r[k] == aliases[k])
  {
    if games != [] {
      var init, g := games[..|games| - 1], games[|games| - 1];
      AddGameAliasesSpec(aliases, init, name);
      assert games == init + [g];
      if g.name != "" && g.name != name {
        assert AliasNames(games, name) == AliasNames(init, name) + {g.name};
      } else {
        assert AliasNames(games, name) == AliasNames(init, name);
      }
    }
  }

  /**
   * `Get`: a protocol name is found directly, and wins over an alias of the
   * same name; an alias gives the entry of its target, which is nil when the
   * target is not registered; any other name is not found.
   */
  function Lookup(protocols: map<string, Protocol>, aliases: map<string, string>, name: string): (r: (Option<Protocol>, bool))
    ensures r.1 <==> name in protocols || name in aliases
    ensures name in protocols ==> r.0 == Some(protocols[name])
    ensures name !in protocols && name in aliases ==>
      (r.0.Some? <==> aliases[name] in protocols) && (r.0.Some? ==> r.0.value == protocols[aliases[name]])
    ensures !r.1 ==> r.0 == None
  {
    if name in protocols then (Some(protocols[name]), true)
    else if name in aliases then
      (if aliases[name] in protocols then Some(protocols[aliases[name]]) else None, true)
    else (None, false)
  }

  /** Every protocol is stored under its own name, as `Register` does. */
  predicate Keyed(protocols: map<string, Protocol>)
  {
    forall k :: k in protocols ==> protocols[k].name == k
  }

  /**
   * `all` is one iteration order of the map `protocols` (what ranging over
   * `AllProtocols()` visits): each stored protocol once, under its own name.
   */
  predicate Listing(protocols: map<string, Protocol>, all: seq<Protocol>)
  {
    Keyed(protocols) && DistinctNames(all)
    && (forall i :: 0 <= i < |all| ==> all[i].name in protocols && protocols[all[i].name] == all[i])
    && (forall k :: k in protocols ==> protocols[k] in all)
  }

  /** No two protocols of `all` share a name, as no two keys of a map can. */
  predicate DistinctNames(all: seq<Protocol>)
  {
    forall i, j :: 0 <= i < j < |all| ==> all[i].name != all[j].name
  }

  /** The first of `games` with the given name. */
  function FindGame(games: seq<GameConfig>, name: string): (r: Option<GameConfig>)
    ensures r.Some? ==> r.value in games && r.value.name == name
  {
    if games == [] then None
    else if games[0].name == name then Some(games[0])
    else FindGame(games[1..], name)
  }

  /** `FindGame` finds the first game of that name, and finds none only when there is none. */
  lemma {:induction false} FindGameFirst(games: seq<GameConfig>, name: string)
    ensures FindGame(games, name).None? <==> forall i :: 0 <= i < |games| ==> games[i].name != name
    ensures FindGame(games, name).Some? ==>
      exists i :: 0 <= i < |games| && games[i] == FindGame(games, name).value
                  && forall j :: 0 <= j < i ==> games[j].name != name
  {
    if games != [] && games[0].name != name {
      FindGameFirst(games[1..], name);
      if FindGame(games, name).Some? {
        var i :| 0 <= i < |games[1..]| && games[1..][i] == FindGame(games, name).value
                 && forall j :: 0 <= j < i ==> games[1..][j].name != name;
        assert games[i + 1] == FindGame(games, name).value;
      }
    } else if games != [] {
      assert games[0] == FindGame(games, name).value;
    }
  }

  /** The configuration of the protocol itself, used when none of its games has the name. */
  function DefaultConfig(p: Protocol): GameConfig
  {
    GameConfig(p.name, p.defaultPort, p.defaultQueryPort)
  }

  /**
   * `GetGameConfig` after its lookup: not found (Ok(None)), the game entry
   * or the protocol's default configuration with the protocol. An alias
   * whose protocol is not registered yields a nil protocol, on which
   * `Games()` would fail: that is the error.
   */
  function ConfigFor(found: (Option<Protocol>, bool), gameName: string): Result<Option<(GameConfig, Protocol)>>
  {
    if !found.1 then Ok(None)
    else match found.0
      case None => Err("nil protocol")
      case Some(p) =>
        match FindGame(p.games, gameName)
        case Some(g) => Ok(Some((g, p)))
        case None => Ok(Some((DefaultConfig(p), p)))
  }

  class Registry {
    var protocols: map<string, Protocol>
    var aliases: map<string, string>

    /** The package-level registry starts empty. */
    constructor ()
      ensures protocols == map[] && aliases == map[]
    {
      protocols := map[];
      aliases := map[];
    }

    /** `Register`: stores the protocol under its name, then adds its games' names as aliases. */
    method Register(p: Protocol)
      modifies this
      ensures protocols == old(protocols)[p.name := p]
      ensures aliases == AddGameAliases(old(aliases), p.games, p.name)
      ensures Get(p.name) == (Some(p), true)
      ensures Keyed(old(protocols)) ==> Keyed(protocols)
    {
      protocols := protocols[p.name := p];
      for i := 0 to |p.games|
        invariant protocols == old(protocols)[p.name := p]
        invariant aliases == AddGameAliases(old(aliases), p.games[..i], p.name)
      {
        assert p.games[..i + 1][..i] == p.games[..i];
        var game := p.games[i];
        if game.name != "" && game.name != p.name {
          aliases := aliases[game.name := p.name];
        }
      }
      assert p.games[..|p.games|] == p.games;
    }

    /** `RegisterAlias`: sets or overwrites one alias; the protocols are left alone. */
    method RegisterAlias(alias: string, protocolName: string)
      modifies this
      ensures aliases == old(aliases)[alias := protocolName]
      ensures protocols == old(protocols)
      ensures alias !in protocols ==>
        Get(alias) == (if protocolName in protocols then Some(protocols[protocolName]) else None, true)
    {
      aliases := aliases[alias := protocolName];
    }

    /** `Get`, on the registry's current maps. */
    function Get(name: string): (Option<Protocol>, bool)
      reads this
    {
      Lookup(protocols, aliases, name)
    }

    /** `GetGameConfig`, with its search loop over the protocol's games. */
    method GetGameConfig(gameName: string) returns (r: Result<Option<(GameConfig, Protocol)>>)
      ensures r == ConfigFor(Get(gameName), gameName)
    {
      var found := Get(gameName);
      if !found.1 {
        return Ok(None);
      }
      if found.0.None? {
        return Err("nil protocol");
      }
      var p := found.0.value;
      var i := 0;
      while i < |p.games|
        invariant i <= |p.games|
        invariant FindGame(p.games, gameName) == FindGame(p.games[i..], gameName)
      {
        if p.games[i].name == gameName {
          return Ok(Some((p.games[i], p)));
        }
        assert p.games[i..][1..] == p.games[i + 1..];
        i := i + 1;
      }
      return Ok(Some((DefaultConfig(p), p)));
    }

    /** `All`: a new map with the same entries, built one key at a time. */
    method All() returns (result: map<string, Protocol>)
      ensures result == protocols
    {
      result := map[];
      var left := protocols.Keys;
      while left != {}
        invariant left <= protocols.Keys
        invariant result.Keys == protocols.Keys - left
        invariant forall k :: k in result ==> result[k] == protocols[k]
        decreases left
      {
        var name :| name in left;
        result := result[name := protocols[name]];
        left := left - {name};
      }
    }

    /** `AllNames`: every protocol name once, then every alias once (a key of both maps appears twice). */
    method AllNames() returns (names: seq<string>)
      ensures |names| == |protocols| + |aliases|
      ensures DistinctKeys(names[..|protocols|], protocols.Keys)
      ensures DistinctKeys(names[|protocols|..], aliases.Keys)
    {
      var first := KeyList(protocols.Keys);
      var second := KeyList(aliases.Keys);
      names := first + second;
      assert names[..|protocols|] == first && names[|protocols|..] == second;
    }
  }

  /** `s` lists the keys `keys`, each exactly once. */
  predicate DistinctKeys<T>(s: seq<T>, keys: set<T>)
  {
    |s| == |keys| && (forall i :: 0 <= i < |s| ==> s[i] in keys)
    && (forall k :: k in keys ==> k in s)
    && (forall i, j :: 0 <= i < j < |s| ==> s[i] != s[j])
  }

  /** A range loop over a map's keys (`AllNames`, and the engine's port lists): each key appended once, in some order. */
  method KeyList<T>(keys: set<T>) returns (s: seq<T>)
    ensures DistinctKeys(s, keys)
  {
    s := [];
    var left := keys;
    while left != {}
      invariant left <= keys
      invariant forall i :: 0 <= i < |s| ==> s[i] in keys && s[i] !in left
      invariant forall k :: k in keys ==> k in s || k in left
      invariant forall i, j :: 0 <= i < j < |s| ==> s[i] != s[j]
      invariant |s| + |left| == |keys|
      decreases left
    {
      var k :| k in left;
      s := s + [k];
      left := left - {k};
    }
  }

  /** After `Register(p)`, each of its other game names resolves to it unless it names a registered protocol. */
  lemma RegisteredAliasResolves(protocols: map<string, Protocol>, aliases: map<string, string>, p: Protocol, g: GameConfig)
    requires g in p.games && g.name != "" && g.name != p.name
    ensures var a := AddGameAliases(aliases, p.games, p.name);
      var ps := protocols[p.name := p];
      g.name in a && a[g.name] == p.name && p.name in ps && ps[a[g.name]] == p
  {
    AddGameAliasesSpec(aliases, p.games, p.name);
    assert g.name in AliasNames(p.games, p.name);
  }

  /** A game listed by its protocol is returned as listed; a name it does not list gets the protocol's defaults. */
  lemma ConfigForFound(p: Protocol, gameName: string)
    ensures (exists i :: 0 <= i < |p.games| && p.games[i].name == gameName) ==>
      ConfigFor((Some(p), true), gameName).Ok? && ConfigFor((Some(p), true), gameName).value.Some?
      && ConfigFor((Some(p), true), gameName).value.value.0.name == gameName
      && ConfigFor((Some(p), true), gameName).value.value.0 in p.games
    ensures (forall i :: 0 <= i < |p.games| ==> p.games[i].name != gameName) ==>
      ConfigFor((Some(p), true), gameName) == Ok(Some((DefaultConfig(p), p)))
  {
    FindGameFirst(p.games, gameName);
  }
}
