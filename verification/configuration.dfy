/** The client's configuration: the comma-separated addresses cleaned up, defaults filled in, the groups of
    clients built from it, and the server name inferred from it. */
module Configurations {
  import opened Wrappers
  import opened RoundRobin

  // ---- Splitting, trimming, joining ----

  /** unicode.IsSpace */
  predicate IsSpace(c: char) {
    || '\t' <= c <= '\r' || c == ' ' || c == '\U{85}' || c == '\U{A0}' || c == '\U{1680}'
    || '\U{2000}' <= c <= '\U{200A}' || c == '\U{2028}' || c == '\U{2029}' || c == '\U{202F}'
    || c == '\U{205F}' || c == '\U{3000}'
  }

  /** The characters that Unicode calls white space. */
  lemma SpacesListed(c: char)
    ensures IsSpace(c) <==> c in {
        '\U{9}', '\U{A}', '\U{B}', '\U{C}', '\U{D}', '\U{20}', '\U{85}', '\U{A0}', '\U{1680}',
        '\U{2000}', '\U{2001}', '\U{2002}', '\U{2003}', '\U{2004}', '\U{2005}', '\U{2006}', '\U{2007}', '\U{2008}',
        '\U{2009}', '\U{200A}', '\U{2028}', '\U{2029}', '\U{202F}', '\U{205F}', '\U{3000}' }
  {
  }

  /** strings.TrimSpace */
  function Trim(s: string): string {
    if s == "" then s
    else if IsSpace(s[0]) then Trim(s[1..])
    else if IsSpace(s[|s| - 1]) then Trim(s[..|s| - 1])
    else s
  }

  /** strings.Split(s, ","): one part more than there are commas. */
  function Split(s: string): (parts: seq<string>)
    ensures parts != []
  {
    if s == "" then [""]
    else
      var rest := Split(s[1..]);
      if s[0] == ',' then [""] + rest else [[s[0]] + rest[0]] + rest[1..]
  }

  /** strings.Join(parts, ",") */
  function Join(parts: seq<string>): string {
    if parts == [] then ""
    else if |parts| == 1 then parts[0]
    else parts[0] + "," + Join(parts[1..])
  }

  /** The parts that are not blank, trimmed. */
  function Clean(parts: seq<string>): seq<string> {
    if parts == [] then []
    else if Trim(parts[0]) == "" then Clean(parts[1..])
    else [Trim(parts[0])] + Clean(parts[1..])
  }

  predicate IsClean(parts: seq<string>) {
    forall p :: p in parts ==> p != "" && Trim(p) == p && ',' !in p
  }

  lemma {:induction false} TrimIsTrimmed(s: string)
    ensures Trim(Trim(s)) == Trim(s)
    ensures ',' !in s ==> ',' !in Trim(s)
    decreases |s|
  {
    if s != "" {
      if IsSpace(s[0]) {
        TrimIsTrimmed(s[1..]);
      } else if IsSpace(s[|s| - 1]) {
        TrimIsTrimmed(s[..|s| - 1]);
      }
    }
  }

  predicate AllSpace(s: string) { forall c :: c in s ==> IsSpace(c) }

  /** A string that no space begins or ends. */
  predicate Tight(s: string) { s == "" || (!IsSpace(s[0]) && !IsSpace(s[|s| - 1])) }

  /** Trimming takes away spaces at both ends, and all of them. */
  lemma {:induction false} TrimTakesSpaces(s: string) returns (a: string, b: string)
    ensures s == a + Trim(s) + b && AllSpace(a) && AllSpace(b)
    decreases |s|
  {
    a, b := "", "";
    if s != "" && IsSpace(s[0]) {
      var first, rest := [s[0]], s[1..];
      a, b := TrimTakesSpaces(rest);
      Regroup(first, a, Trim(rest), b, "");
      assert s == first + rest && b + "" == b;
      a := first + a;
    } else if s != "" && IsSpace(s[|s| - 1]) {
      var rest, last := s[..|s| - 1], [s[|s| - 1]];
      a, b := TrimTakesSpaces(rest);
      Regroup("", a, Trim(rest), b, last);
      assert s == rest + last && "" + rest == rest && "" + a == a;
      b := b + last;
    } else {
      assert s == "" + s + "";
    }
  }

  lemma {:induction false} TrimIsTight(s: string)
    ensures Trim(s) == "" || (!IsSpace(Trim(s)[0]) && !IsSpace(Trim(s)[|Trim(s)| - 1]))
    decreases |s|
  {
    if s != "" && IsSpace(s[0]) {
      TrimIsTight(s[1..]);
    } else if s != "" && IsSpace(s[|s| - 1]) {
      TrimIsTight(s[..|s| - 1]);
    }
  }

  lemma Regroup(x: string, a: string, core: string, b: string, y: string)
    ensures x + (a + core + b) + y == (x + a) + core + (b + y)
  {
  }

  lemma {:induction false} TrimOfSpaces(s: string)
    requires AllSpace(s)
    ensures Trim(s) == ""
  {
    if s != "" {
      assert s[0] in s;
      TrimOfSpaces(s[1..]);
    }
  }

  /** Whatever spaces a tight string is padded with, trimming gives it back. */
  lemma {:induction false} TrimOfPadded(a: string, core: string, b: string)
    requires AllSpace(a) && AllSpace(b) && Tight(core)
    ensures Trim(a + core + b) == core
    decreases |a| + |b|
  {
    var s := a + core + b;
    if core == "" {
      TrimOfSpaces(s);
    } else if a != "" {
      assert s[0] == a[0] && a[0] in a && s[1..] == a[1..] + core + b;
      TrimOfPadded(a[1..], core, b);
    } else if b != "" {
      assert s[0] == core[0] && s[|s| - 1] == b[|b| - 1] && b[|b| - 1] in b;
      assert s[..|s| - 1] == a + core + b[..|b| - 1];
      TrimOfPadded(a, core, b[..|b| - 1]);
    } else {
      assert s == core;
    }
  }

  lemma {:induction false} SplitHasNoCommas(s: string)
    ensures forall p :: p in Split(s) ==> ',' !in p
  {
    if s != "" {
      SplitHasNoCommas(s[1..]);
      var rest := Split(s[1..]);
      assert rest[0] in rest;
      forall p | p in Split(s) ensures ',' !in p {
        if s[0] != ',' && p != [s[0]] + rest[0] {
          assert p in rest[1..];
        }
      }
    }
  }

  lemma {:induction false} CleanIsClean(parts: seq<string>)
    requires forall p :: p in parts ==> ',' !in p
    ensures IsClean(Clean(parts))
  {
    if parts != [] {
      TrimIsTrimmed(parts[0]);
      CleanIsClean(parts[1..]);
    }
  }

  lemma {:induction false} CleanAgain(parts: seq<string>)
    requires IsClean(parts)
    ensures Clean(parts) == parts
  {
    if parts != [] {
      assert parts[0] in parts && forall p :: p in parts[1..] ==> p in parts;
      CleanAgain(parts[1..]);
      assert parts == [parts[0]] + parts[1..];
    }
  }

  lemma {:induction false} SplitOfConcat(part: string, s: string)
    requires ',' !in part
    ensures Split(part + s) == [part + Split(s)[0]] + Split(s)[1..]
  {
    if part == "" {
      assert part + s == s && part + Split(s)[0] == Split(s)[0];
      assert Split(s) == [Split(s)[0]] + Split(s)[1..];
    } else {
      assert (part + s)[1..] == part[1..] + s;
      SplitOfConcat(part[1..], s);
      assert part + Split(s)[0] == [part[0]] + (part[1..] + Split(s)[0]);
    }
  }

  lemma {:induction false} SplitOfJoin(parts: seq<string>)
    requires parts != [] && forall p :: p in parts ==> ',' !in p
    ensures Split(Join(parts)) == parts
  {
    if |parts| == 1 {
      SplitOfConcat(parts[0], "");
      assert parts[0] + "" == parts[0];
    } else {
      var rest := Join(parts[1..]);
      SplitOfJoin(parts[1..]);
      SplitOfConcat(parts[0], "," + rest);
      assert ("," + rest)[1..] == rest;
      assert parts[0] + "," + rest == parts[0] + ("," + rest);
      assert parts[0] + "" == parts[0];
      assert parts == [parts[0]] + parts[1..];
    }
  }

  /** Splitting loses nothing. */
  lemma {:induction false} JoinOfSplit(s: string)
    ensures Join(Split(s)) == s
  {
    if s != "" {
      JoinOfSplit(s[1..]);
      var rest := Split(s[1..]);
      assert s == [s[0]] + s[1..];
      if s[0] == ',' {
        assert ([""] + rest)[1..] == rest;
        assert Join([""] + rest) == "" + "," + Join(rest);
        assert "" + "," + Join(rest) == [s[0]] + Join(rest);
      } else {
        JoinOfLonger([s[0]], rest);
      }
    }
  }

  lemma JoinOfLonger(x: string, parts: seq<string>)
    requires parts != []
    ensures Join([x + parts[0]] + parts[1..]) == x + Join(parts)
  {
    var longer := [x + parts[0]] + parts[1..];
    assert longer[1..] == parts[1..];
    if |parts| > 1 {
      assert x + parts[0] + "," + Join(parts[1..]) == x + (parts[0] + "," + Join(parts[1..]));
    }
  }

  /** The part is core with spaces around it. */
  ghost predicate IsPadded(part: string, core: string) {
    exists a, b :: AllSpace(a) && AllSpace(b) && part == a + core + b
  }

  lemma PaddedIsPadded(a: string, core: string, b: string)
    requires AllSpace(a) && AllSpace(b)
    ensures IsPadded(a + core + b, core)
  {
  }

  function NotBlank(cores: seq<string>): seq<string> {
    if cores == [] then [] else (if cores[0] == "" then [] else [cores[0]]) + NotBlank(cores[1..])
  }

  lemma {:induction false} CleanOfPadded(parts: seq<string>, cores: seq<string>)
    requires |parts| == |cores| && forall i :: 0 <= i < |parts| ==> IsPadded(parts[i], cores[i]) && Tight(cores[i])
    ensures Clean(parts) == NotBlank(cores)
  {
    if parts != [] {
      var a, b :| AllSpace(a) && AllSpace(b) && parts[0] == a + cores[0] + b;
      TrimOfPadded(a, cores[0], b);
      CleanOfPadded(parts[1..], cores[1..]);
    }
  }

  lemma AddressesOfPadded(parts: seq<string>, cores: seq<string>)
    requires parts != [] && |parts| == |cores| && forall p :: p in parts ==> ',' !in p
    requires forall i :: 0 <= i < |parts| ==> IsPadded(parts[i], cores[i]) && Tight(cores[i])
    ensures Addresses(Join(parts)) == NotBlank(cores)
  {
    SplitOfJoin(parts);
    CleanOfPadded(parts, cores);
  }

  /** A list as people write it: two addresses, a comma and a space. */
  lemma TwoAddresses(x: string, y: string)
    requires x != "" && y != "" && Tight(x) && Tight(y) && ',' !in x && ',' !in y
    ensures Addresses(x + ", " + y) == [x, y]
  {
    var parts, cores := [x, " " + y], [x, y];
    assert "" + x + "" == x && " " + y + "" == " " + y;
    PaddedIsPadded("", x, "");
    PaddedIsPadded(" ", y, "");
    AddressesOfPadded(parts, cores);
    assert parts[1..] == [" " + y] && Join(parts) == x + "," + (" " + y);
    assert x + ", " + y == x + "," + (" " + y);
    assert cores[1..] == [y] && [y][1..] == [];
    assert NotBlank([y]) == [y] + NotBlank([]);
    assert NotBlank(cores) == [x] + NotBlank([y]);
  }

  lemma {:induction false} CleanConcat(parts: seq<string>, p: string)
    ensures Clean(parts + [p]) == Clean(parts) + (if Trim(p) == "" then [] else [Trim(p)])
  {
    if parts == [] {
      assert [p][1..] == [];
    } else {
      assert (parts + [p])[1..] == parts[1..] + [p];
      CleanConcat(parts[1..], p);
    }
  }

  /** The addresses a configuration string names. */
  function Addresses(s: string): seq<string> { Clean(Split(s)) }

  method NormalizeAddrs(addrs: string) returns (r: string)
    ensures r == Join(Addresses(addrs))
  {
    var normalized: seq<string> := [];
    var parts := Split(addrs);
    for i := 0 to |parts|
      invariant normalized == Clean(parts[..i])
    {
      var addr := Trim(parts[i]);
      assert parts[..i + 1] == parts[..i] + [parts[i]];
      CleanConcat(parts[..i], parts[i]);
      if addr != "" {
        normalized := normalized + [addr];
      }
    }
    assert parts[..|parts|] == parts;
    r := Join(normalized);
  }

  lemma AddressesAreClean(s: string)
    ensures IsClean(Addresses(s))
  {
    SplitHasNoCommas(s);
    CleanIsClean(Split(s));
  }

  /** Splitting the normalised string gives the addresses as they are, so normalising again changes nothing. */
  lemma NormalizingTwiceIsOnce(s: string)
    ensures Addresses(s) != [] ==> Split(Join(Addresses(s))) == Addresses(s)
    ensures Addresses(Join(Addresses(s))) == Addresses(s)
  {
    AddressesAreClean(s);
    if Addresses(s) != [] {
      SplitOfJoin(Addresses(s));
      CleanAgain(Addresses(s));
    }
  }

  // ---- Defaults ----

  const DEFAULT_ADDR: string := "cloud.mygaru.com:7937"
  const MILLISECOND: int := 1_000_000
  const DEFAULT_MAX_REQUEST_DURATION: int := 1000 * MILLISECOND
  const DEFAULT_DNS_REFRESH_INTERVAL: int := 60_000 * MILLISECOND
  const DEFAULT_CONNECTIONS: int := 128
  const DEFAULT_MAX_PENDING_REQUESTS: int := 8
  const DEFAULT_BUFFER_SIZE: int := 4 * 1024

  datatype Configuration = Configuration(
    addrs: string, maxRequestDuration: int, maxDialDuration: int, dnsRefreshInterval: int,
    maxPendingRequests: int, connections: int, readBufferSize: int, writeBufferSize: int)

  const ZERO_CONFIGURATION: Configuration := Configuration("", 0, 0, 0, 0, 0, 0, 0)

  /** A configuration that needs no default. */
  predicate Complete(c: Configuration) {
    && Addresses(c.addrs) != [] && c.addrs == Join(Addresses(c.addrs))
    && c.maxRequestDuration > 0 && c.maxDialDuration > 0 && c.dnsRefreshInterval != 0 && c.maxPendingRequests > 0
    && c.connections > 0 && c.readBufferSize > 0 && c.writeBufferSize > 0
  }

  /** n is given with the default filled in. */
  predicate FilledIn(given: int, n: int, fallback: int) { n == if given > 0 then given else fallback }

  lemma JoinedIsNotEmpty(parts: seq<string>)
    requires IsClean(parts) && parts != []
    ensures Join(parts) != ""
  {
    assert parts[0] in parts;
  }

  /** An address that is already trimmed, and names no other, is the one address of its own string. */
  lemma OneAddress(s: string)
    requires s != "" && ',' !in s && !IsSpace(s[0]) && !IsSpace(s[|s| - 1])
    ensures Addresses(s) == [s] && Join([s]) == s
  {
    SplitOfConcat(s, "");
    assert s + "" == s;
    assert Clean([s]) == [Trim(s)] + Clean([s][1..]);
  }

  /** The address half of the normalisation: the addresses cleaned up, or the default when there are none. */
  method NormalizeAddrsOrDefault(addrs: string) returns (r: string)
    ensures Addresses(r) == (if Addresses(addrs) == [] then [DEFAULT_ADDR] else Addresses(addrs))
    ensures r == Join(Addresses(r))
  {
    r := NormalizeAddrs(addrs);
    NormalizingTwiceIsOnce(addrs);
    AddressesAreClean(addrs);
    if |r| == 0 {
      r := DEFAULT_ADDR;
      assert ',' !in r && r[0] == 'c' && r[|r| - 1] == '7';
      OneAddress(r);
    }
    if Addresses(addrs) != [] {
      JoinedIsNotEmpty(Addresses(addrs));
    }
  }

  method NormalizeConfiguration(cfg: Option<Configuration>) returns (n: Configuration)
    ensures Complete(n)
    ensures cfg.Some? && Complete(cfg.value) ==> n == cfg.value
    ensures cfg.None? ==>
      n == Configuration("cloud.mygaru.com:7937", 1_000_000_000, 1_000_000_000, 60_000_000_000, 8, 128, 4096, 4096)
    ensures
      var c := match cfg case Some(c) => c case None => ZERO_CONFIGURATION;
      && Addresses(n.addrs) == (if Addresses(c.addrs) == [] then [DEFAULT_ADDR] else Addresses(c.addrs))
      && FilledIn(c.maxRequestDuration, n.maxRequestDuration, DEFAULT_MAX_REQUEST_DURATION)
      && FilledIn(c.maxDialDuration, n.maxDialDuration, n.maxRequestDuration)
      && n.dnsRefreshInterval ==
           (if c.dnsRefreshInterval == 0 then DEFAULT_DNS_REFRESH_INTERVAL else c.dnsRefreshInterval)
      && FilledIn(c.maxPendingRequests, n.maxPendingRequests, DEFAULT_MAX_PENDING_REQUESTS)
      && FilledIn(c.connections, n.connections, DEFAULT_CONNECTIONS)
      && FilledIn(c.readBufferSize, n.readBufferSize, DEFAULT_BUFFER_SIZE)
      && FilledIn(c.writeBufferSize, n.writeBufferSize, DEFAULT_BUFFER_SIZE)
  {
    n := match cfg case Some(c) => c case None => ZERO_CONFIGURATION;
    if n.connections <= 0 {
      n := n.(connections := DEFAULT_CONNECTIONS);
    }
    var addrs := NormalizeAddrsOrDefault(n.addrs);
    n := n.(addrs := addrs);
    if n.maxRequestDuration <= 0 {
      n := n.(maxRequestDuration := DEFAULT_MAX_REQUEST_DURATION);
    }
    if n.maxDialDuration <= 0 {
      n := n.(maxDialDuration := n.maxRequestDuration);
    }
    if n.dnsRefreshInterval == 0 {
      n := n.(dnsRefreshInterval := DEFAULT_DNS_REFRESH_INTERVAL);
    }
    if n.maxPendingRequests <= 0 {
      n := n.(maxPendingRequests := DEFAULT_MAX_PENDING_REQUESTS);
    }
    if n.readBufferSize <= 0 {
      n := n.(readBufferSize := DEFAULT_BUFFER_SIZE);
    }
    if n.writeBufferSize <= 0 {
      n := n.(writeBufferSize := DEFAULT_BUFFER_SIZE);
    }
  }

  // ---- The groups ----

  /** The loop of newClient over the parts of the address string. */
  method NewGroups(parts: seq<string>, connections: nat) returns (groups: seq<ClientsGroup>)
    ensures |groups| == |Clean(parts)|
    ensures forall i :: 0 <= i < |groups| ==>
      && fresh(groups[i]) && groups[i].addr == Clean(parts)[i] && groups[i].clients == connections
      && groups[i].View() == Group(0, 0, 0, seq(connections, _ => 0))
    ensures forall i, j :: 0 <= i < j < |groups| ==> groups[i] != groups[j]
  {
    groups := [];
    for i := 0 to |parts|
      invariant |groups| == |Clean(parts[..i])|
      invariant forall k :: 0 <= k < |groups| ==>
        && fresh(groups[k]) && groups[k].addr == Clean(parts[..i])[k] && groups[k].clients == connections
        && groups[k].View() == Group(0, 0, 0, seq(connections, _ => 0))
      invariant forall k, l :: 0 <= k < l < |groups| ==> groups[k] != groups[l]
    {
      var shardAddr := Trim(parts[i]);
      assert parts[..i + 1] == parts[..i] + [parts[i]];
      CleanConcat(parts[..i], parts[i]);
      if shardAddr != "" {
        var group := new ClientsGroup(shardAddr, connections);
        groups := groups + [group];
      }
    }
    assert parts[..|parts|] == parts;
  }

  /** newClient: one group per address, every group of as many clients as configured, with no call made yet. */
  method NewClient(cfg: Option<Configuration>) returns (sc: ShardedClient, n: Configuration)
    ensures Complete(n) && n.connections > 0
    ensures fresh(sc) && (forall g :: g in sc.groups ==> fresh(g)) && sc.Valid()
    ensures |sc.groups| == |Addresses(n.addrs)|
    ensures forall i :: 0 <= i < |sc.groups| ==> sc.groups[i].addr == Addresses(n.addrs)[i]
    ensures sc.View() == Init(|sc.groups|, n.connections)
  {
    n := NormalizeConfiguration(cfg);
    var groups := NewGroups(Split(n.addrs), n.connections);
    sc := new ShardedClient(groups);
    NothingServed(sc, n.connections);
  }

  // ---- The server name ----

  datatype NameError = SeveralHosts(first: string, other: string) | NoHost

  /** The host of an address: all of it when it names no port. */
  function HostOf(splitHost: string -> Option<string>, addr: string): string {
    match splitHost(addr) case Some(host) => host case None => addr
  }

  /** What the server certificate is verified against: the configured name, or the one host all addresses that name a
      host agree on. */
  method ResolveServerName(configured: string, cfg: Option<Configuration>, splitHost: string -> Option<string>)
    returns (r: Result<string, NameError>, n: Configuration)
    ensures Complete(n)
    ensures configured != "" ==> r == Success(configured)
    ensures configured == "" ==>
      var hosts := Hosts(Addresses(n.addrs), splitHost);
      match r
      case Success(name) => hosts == {name} && name != ""
      case Failure(NoHost) => hosts == {}
      case Failure(SeveralHosts(a, b)) => a != b && {a, b} <= hosts
  {
    n := NormalizeConfiguration(cfg);
    if configured != "" {
      return Success(configured), n;
    }
    r := InferServerName(n.addrs, splitHost);
  }

  /** The hosts that the addresses name. */
  ghost function Hosts(addrs: seq<string>, splitHost: string -> Option<string>): set<string> {
    set a | a in addrs && HostOf(splitHost, a) != "" :: HostOf(splitHost, a)
  }

  /** A host is one of them when it is not empty and splitting some address gives it, or some address that cannot be
      split is it. */
  lemma HostsExactly(addrs: seq<string>, splitHost: string -> Option<string>, host: string)
    ensures host in Hosts(addrs, splitHost) <==>
      host != "" && exists a :: a in addrs && (splitHost(a) == Some(host) || (splitHost(a) == None && a == host))
  {
  }

  function Only(name: string): set<string> { if name == "" then {} else {name} }

  lemma HostsMore(addrs: seq<string>, a: string, splitHost: string -> Option<string>)
    ensures Hosts(addrs + [a], splitHost) == Hosts(addrs, splitHost) + Only(HostOf(splitHost, a))
  {
    assert forall x :: x in addrs + [a] <==> x in addrs || x == a;
  }

  lemma HostsOfNone(splitHost: string -> Option<string>)
    ensures Hosts([], splitHost) == Only("")
  {
  }

  /** The loop of resolveServerName. */
  method InferServerName(addrs: string, splitHost: string -> Option<string>) returns (r: Result<string, NameError>)
    ensures
      var hosts := Hosts(Addresses(addrs), splitHost);
      match r
      case Success(name) => hosts == {name} && name != ""
      case Failure(NoHost) => hosts == {}
      case Failure(SeveralHosts(a, b)) => a != b && {a, b} <= hosts
  {
    var name := "";
    var parts := Split(addrs);
    HostsOfNone(splitHost);
    for i := 0 to |parts|
      invariant Hosts(Clean(parts[..i]), splitHost) == Only(name)
    {
      var addr := Trim(parts[i]);
      HostsSoFar(parts, i, splitHost);
      if addr != "" {
        var host := HostOf(splitHost, addr);
        if host != "" {
          if name == "" {
            name := host;
          } else if host != name {
            HostsOfPrefix(parts, i + 1, splitHost);
            return Failure(SeveralHosts(name, host));
          }
        }
      }
    }
    assert parts[..|parts|] == parts;
    if name == "" {
      return Failure(NoHost);
    }
    return Success(name);
  }

  lemma HostsSoFar(parts: seq<string>, i: nat, splitHost: string -> Option<string>)
    requires i < |parts|
    ensures
      Hosts(Clean(parts[..i + 1]), splitHost) ==
        Hosts(Clean(parts[..i]), splitHost)
          + if Trim(parts[i]) == "" then {} else Only(HostOf(splitHost, Trim(parts[i])))
  {
    assert parts[..i + 1] == parts[..i] + [parts[i]];
    CleanConcat(parts[..i], parts[i]);
    HostsMore(Clean(parts[..i]), Trim(parts[i]), splitHost);
  }

  lemma HostsOfPrefix(parts: seq<string>, i: nat, splitHost: string -> Option<string>)
    requires i <= |parts|
    ensures Hosts(Clean(parts[..i]), splitHost) <= Hosts(Clean(parts), splitHost)
  {
    CleanPrefix(parts, i);
  }

  lemma {:induction false} CleanPrefix(parts: seq<string>, i: nat)
    requires i <= |parts|
    ensures forall a :: a in Clean(parts[..i]) ==> a in Clean(parts)
    decreases |parts| - i
  {
    if i == |parts| {
      assert parts[..i] == parts;
    } else {
      assert parts[..i + 1] == parts[..i] + [parts[i]];
      CleanConcat(parts[..i], parts[i]);
      CleanPrefix(parts, i + 1);
    }
  }
}
