/**
 * Go's `net.SplitHostPort` and `net.JoinHostPort`, which the query library
 * uses to take a "host:port" address apart and put one together again. A
 * host holding a colon (an IPv6 address) travels in square brackets.
 */
module NetAddr {
  import opened Wrappers
  import Text

  /** `net.JoinHostPort`: "host:port", with the host bracketed when it holds a colon. */
  function JoinHostPort(host: string, port: string): (a: string)
    ensures ':' in host ==> a == "[" + host + "]:" + port
    ensures ':' !in host ==> a == host + ":" + port
  {
    if ':' in host then "[" + host + "]:" + port else host + ":" + port
  }

  /** The text of a `*net.AddrError`: the reason, after "address <addr>: " unless the address is empty. */
  function AddrError(addr: string, why: string): string
  {
    if addr == [] then why else "address " + addr + ": " + why
  }

  /**
   * `net.SplitHostPort`: the port follows the last colon; a host starting
   * with '[' must end with the first ']' right before that colon; a bare
   * host may not hold a colon; no stray bracket may remain. Each failure
   * is an address error naming `hostport`.
   */
  function SplitHostPort(hostport: string): (r: Result<(string, string)>)
    ensures hostport == [] ==> r == Err("missing port in address")
  {
    match Text.LastIndexOf(hostport, ':')
    case None => Err(AddrError(hostport, "missing port in address"))
    case Some(i) =>
      if hostport[0] == '[' then
        match Text.IndexOf(hostport, ']')
        case None => Err(AddrError(hostport, "missing ']' in address"))
        case Some(end) =>
          if end + 1 == |hostport| then Err(AddrError(hostport, "missing port in address"))
          else if end + 1 != i then
            if hostport[end + 1] == ':' then Err(AddrError(hostport, "too many colons in address"))
            else Err(AddrError(hostport, "missing port in address"))
          else StrayBrackets(hostport, hostport[1..end], 1, end + 1, i)
      else if ':' in hostport[..i] then Err(AddrError(hostport, "too many colons in address"))
      else StrayBrackets(hostport, hostport[..i], 0, 0, i)
  }

  /** The last checks of `SplitHostPort`: no '[' from `j` on, no ']' from `k` on. */
  function StrayBrackets(hostport: string, host: string, j: nat, k: nat, i: nat): (r: Result<(string, string)>)
    requires j <= |hostport| && k <= |hostport| && i < |hostport|
  {
    if '[' in hostport[j..] then Err(AddrError(hostport, "unexpected '[' in address"))
    else if ']' in hostport[k..] then Err(AddrError(hostport, "unexpected ']' in address"))
    else Ok((host, hostport[i + 1..]))
  }

  /** A host name without a colon has no port: the error names the address, or is bare for the empty one. */
  lemma MissingPort(hostport: string)
    requires ':' !in hostport
    ensures hostport == [] ==> SplitHostPort(hostport) == Err("missing port in address")
    ensures hostport != [] ==> SplitHostPort(hostport) == Err("address " + hostport + ": " + "missing port in address")
  {
    assert Text.LastIndexOf(hostport, ':').None?;
  }

  /** Every failure of `SplitHostPort` on a non-empty address names that address. */
  lemma SplitErrorNamesAddress(hostport: string)
    requires hostport != [] && SplitHostPort(hostport).Err?
    ensures "address " + hostport + ": " <= SplitHostPort(hostport).msg
  {
  }

  /** A port that `SplitHostPort` can give back: it holds no colon and no bracket. */
  predicate PlainPort(port: string) {
    ':' !in port && '[' !in port && ']' !in port
  }

  /** A host that survives the round trip: no brackets of its own. */
  predicate PlainHost(host: string) {
    '[' !in host && ']' !in host
  }

  /** Splitting a joined address gives the host and port back. */
  lemma SplitJoin(host: string, port: string)
    requires PlainHost(host) && PlainPort(port)
    ensures SplitHostPort(JoinHostPort(host, port)) == Ok((host, port))
  {
    if ':' in host {
      SplitJoinBracketed(host, port);
    } else {
      SplitJoinBare(host, port);
    }
  }

  lemma SplitJoinBare(host: string, port: string)
    requires PlainHost(host) && PlainPort(port) && ':' !in host
    ensures SplitHostPort(host + ":" + port) == Ok((host, port))
  {
    var a := host + ":" + port;
    var n := |host|;
    assert a[n + 1..] == port;
    Text.LastIndexOfAt(a, n, ':');
    assert a[..n] == host;
    if host != [] {
      assert a[0] == host[0];
    }
    assert forall x :: x in a ==> x in host || x == ':' || x in port;
  }

  lemma SplitJoinBracketed(host: string, port: string)
    requires PlainHost(host) && PlainPort(port)
    ensures SplitHostPort("[" + host + "]:" + port) == Ok((host, port))
  {
    var a := "[" + host + "]:" + port;
    var n := |host|;
    BracketedSlices(host, port);
    Text.LastIndexOfAt(a, n + 2, ':');
    Text.IndexOfAt(a, n + 1, ']');
  }

  /** Where the parts of a bracketed address sit. */
  lemma BracketedSlices(host: string, port: string)
    requires PlainHost(host) && PlainPort(port)
    ensures var a := "[" + host + "]:" + port; var n := |host|;
      |a| == n + 3 + |port| && a[0] == '[' && a[n + 1] == ']' && a[n + 2] == ':'
      && a[1..n + 1] == host && a[n + 3..] == port
      && ']' !in a[..n + 1] && '[' !in a[1..] && ']' !in a[n + 2..]
  {
    var a := "[" + host + "]:" + port;
    var n := |host|;
    assert a[n + 3..] == port;
    assert a[..n + 1] == "[" + host;
    assert a[1..] == host + "]:" + port;
    assert a[n + 2..] == ":" + port;
  }

  /** Whatever `SplitHostPort` accepts is a joined address, bracketed or not. */
  lemma SplitIsJoin(hostport: string)
    requires SplitHostPort(hostport).Ok?
    ensures var host := SplitHostPort(hostport).value.0;
      var port := SplitHostPort(hostport).value.1;
      PlainPort(port) && PlainHost(host)
      && (hostport == host + ":" + port || hostport == "[" + host + "]:" + port)
  {
    if hostport[0] == '[' {
      SplitIsJoinBracketed(hostport);
    } else {
      SplitIsJoinBare(hostport);
    }
  }

  lemma SplitIsJoinBracketed(hostport: string)
    requires SplitHostPort(hostport).Ok? && hostport[0] == '['
    ensures var host := SplitHostPort(hostport).value.0;
      var port := SplitHostPort(hostport).value.1;
      PlainPort(port) && PlainHost(host) && hostport == "[" + host + "]:" + port
  {
    var n := |hostport|;
    var i := Text.LastIndexOf(hostport, ':').value;
    var port := hostport[i + 1..];
    var end := Text.IndexOf(hostport, ']').value;
    var host := hostport[1..end];
    assert SplitHostPort(hostport).value == (host, port);
    assert hostport[i + 1..n] == port;
    Text.NotInSubslice(hostport, 1, n, i + 1, n, '[');
    Text.NotInSubslice(hostport, end + 1, n, i + 1, n, ']');
    Text.NotInSubslice(hostport, 1, n, 1, end, '[');
    Text.NotInSubslice(hostport, 0, end, 1, end, ']');
    assert hostport == [hostport[0]] + host + [hostport[end], hostport[i]] + port;
  }

  lemma SplitIsJoinBare(hostport: string)
    requires SplitHostPort(hostport).Ok? && hostport[0] != '['
    ensures var host := SplitHostPort(hostport).value.0;
      var port := SplitHostPort(hostport).value.1;
      PlainPort(port) && PlainHost(host) && hostport == host + ":" + port
  {
    var n := |hostport|;
    var i := Text.LastIndexOf(hostport, ':').value;
    var port := hostport[i + 1..];
    var host := hostport[..i];
    assert SplitHostPort(hostport).value == (host, port);
    assert hostport[i + 1..n] == port;
    Text.NotInSubslice(hostport, 0, n, i + 1, n, '[');
    Text.NotInSubslice(hostport, 0, n, i + 1, n, ']');
    Text.NotInSubslice(hostport, 0, n, 0, i, '[');
    Text.NotInSubslice(hostport, 0, n, 0, i, ']');
    assert hostport == host + [hostport[i]] + port;
  }

  /** The decimal rendering of a port holds only digits and a sign, so it joins and splits cleanly. */
  lemma IntToStringPlain(p: int)
    ensures PlainPort(Text.IntToString(p))
  {
    var s := Text.IntToString(p);
    var d := if p < 0 then Text.NatToString(-p) else Text.NatToString(p);
    assert s == (if p < 0 then "-" + d else d);
    assert forall c :: c in d ==> Text.IsDigit(c);
  }
}
