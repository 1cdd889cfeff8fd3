/** The DNS dialer: the registry of open connections, the round-robin pointer, and the rebalancer
    that closes idle connections to crowded or delisted addresses. */
module Dialer {
  import opened Wrappers
  import opened Addresses
  import opened Balance

  /** The client a connection was dialed for; fastrpc tells how many requests are pending on it. */
  class Owner {
    var pending: nat
  }

  /** An open connection wrapped so that closing it takes it out of the registry, once. */
  class TrackedConn {
    const dialer: DnsDialer
    const addr: string
    const owner: Owner?
    var once: bool
    var underlyingCloses: nat

    constructor (dialer: DnsDialer, addr: string, owner: Owner?)
      ensures this.dialer == dialer && this.addr == addr && this.owner == owner
      ensures !once && underlyingCloses == 0
    {
      this.dialer, this.addr, this.owner := dialer, addr, owner;
      once, underlyingCloses := false, 0;
    }

    predicate IsIdle()
      reads owner
    {
      owner == null || owner.pending == 0
    }

    method Close()
      modifies this`once, this`underlyingCloses, dialer`conns
      ensures once
      ensures underlyingCloses == old(underlyingCloses) + (if old(once) then 0 else 1)
      ensures dialer.conns == if old(once) then old(dialer.conns) else old(dialer.conns) - {this}
    {
      if !once {
        dialer.Remove(this);
        underlyingCloses := underlyingCloses + 1;
        once := true;
      }
    }
  }

  type Registered = map<TrackedConn, string>

  /** The connections in s that the registry has under address a, and how many they are. */
  function Under(conns: Registered, s: set<TrackedConn>, a: string): set<TrackedConn> {
    set c | c in s && c in conns && conns[c] == a
  }

  function Tally(conns: Registered, s: set<TrackedConn>, a: string): nat {
    |Under(conns, s, a)|
  }

  function OnAny(conns: Registered, list: set<string>): set<TrackedConn> {
    set c | c in conns && conns[c] in list
  }

  /** The idle connections. */
  function Idle(conns: Registered): set<TrackedConn>
    reads (set c | c in conns && c.owner != null :: c.owner as object)
  {
    set c | c in conns && c.IsIdle()
  }

  function Chosen(toClose: seq<TrackedConn>): set<TrackedConn> {
    set c | c in toClose
  }

  /** How many connections a listed address is allowed. */
  function Allowance(conns: Registered, addrs: seq<string>): nat
    requires addrs != []
  {
    Max(1, |OnAny(conns, set a | a in addrs)| / |addrs|)
  }

  /** Go's counts[a]: zero when a is not in the map. */
  function Count(counts: map<string, int>, a: string): int {
    if a in counts then counts[a] else 0
  }

  lemma TallyNone(conns: Registered, a: string)
    ensures Tally(conns, {}, a) == 0
  {
    assert Under(conns, {}, a) == {};
  }

  lemma TallyMore(conns: Registered, s: set<TrackedConn>, c: TrackedConn, a: string)
    requires c !in s && c in conns
    ensures Tally(conns, s + {c}, a) == Tally(conns, s, a) + (if conns[c] == a then 1 else 0)
  {
    assert Under(conns, s + {c}, a) == if conns[c] == a then Under(conns, s, a) + {c} else Under(conns, s, a);
  }

  lemma TallyOfSome(conns: Registered, c: TrackedConn)
    requires c in conns
    ensures Tally(conns, conns.Keys, conns[c]) > 0
  {
    assert c in Under(conns, conns.Keys, conns[c]);
  }

  /** Part way through the closing loop: all, idle and picked connections so far, of one address. */
  predicate Trimmed(listed: bool, all: nat, idleSeen: nat, picked: nat, count: int, target: nat) {
    if listed then
      && picked <= idleSeen
      && count == all - picked
      && picked <= Max(0, all - target)
      && (count > target ==> picked == idleSeen)
    else
      picked == idleSeen
  }

  /** The closing loop's invariant over all addresses, listed and delisted. */
  ghost predicate AllTrimmed(conns: Registered, addrs: seq<string>, idleSeen: set<TrackedConn>,
                             picked: set<TrackedConn>, counts: map<string, int>, target: nat)
  {
    forall a ::
      Trimmed(a in addrs, Tally(conns, conns.Keys, a), Tally(conns, idleSeen, a), Tally(conns, picked, a),
              Count(counts, a), target)
  }

  function Decrement(conns: Registered, addrs: seq<string>, counts: map<string, int>, c: TrackedConn): map<string, int>
    requires c in conns
  {
    if conns[c] in addrs then counts[conns[c] := Count(counts, conns[c]) - 1] else counts
  }

  lemma TrimStart(conns: Registered, addrs: seq<string>, counts: map<string, int>, target: nat)
    requires forall a :: a in addrs ==> Count(counts, a) == Tally(conns, conns.Keys, a)
    ensures AllTrimmed(conns, addrs, {}, {}, counts, target)
  {
    forall a ensures Tally(conns, {}, a) == 0 { TallyNone(conns, a); }
  }

  /** One idle connection is picked exactly when its address is delisted or still above the target. */
  lemma TrimIdle(conns: Registered, addrs: seq<string>, idleSeen: set<TrackedConn>, picked: set<TrackedConn>,
                 counts: map<string, int>, target: nat, c: TrackedConn)
    requires AllTrimmed(conns, addrs, idleSeen, picked, counts, target)
    requires c in conns && c !in idleSeen && c !in picked
    ensures
      if conns[c] !in addrs || Count(counts, conns[c]) > target
      then AllTrimmed(conns, addrs, idleSeen + {c}, picked + {c}, Decrement(conns, addrs, counts, c), target)
      else AllTrimmed(conns, addrs, idleSeen + {c}, picked, counts, target)
  {
    forall a
      ensures Tally(conns, idleSeen + {c}, a) == Tally(conns, idleSeen, a) + (if conns[c] == a then 1 else 0)
      ensures Tally(conns, picked + {c}, a) == Tally(conns, picked, a) + (if conns[c] == a then 1 else 0)
    {
      TallyMore(conns, idleSeen, c, a);
      TallyMore(conns, picked, c, a);
    }
  }

  /** The counting loop's invariant. */
  ghost predicate Counted(conns: Registered, allowed: set<string>, seen: set<TrackedConn>, counts: map<string, int>) {
    && counts.Keys <= allowed
    && (forall a :: a in allowed ==> Count(counts, a) == Tally(conns, seen, a))
    && (forall a :: a in counts ==> counts[a] > 0)
  }

  lemma CountAnother(conns: Registered, allowed: set<string>, seen: set<TrackedConn>, counts: map<string, int>,
                     c: TrackedConn)
    requires Counted(conns, allowed, seen, counts) && c !in seen && c in conns
    ensures
      var a := conns[c];
      Counted(conns, allowed, seen + {c}, if a in allowed then counts[a := Count(counts, a) + 1] else counts)
  {
    forall a ensures Tally(conns, seen + {c}, a) == Tally(conns, seen, a) + (if conns[c] == a then 1 else 0) {
      TallyMore(conns, seen, c, a);
    }
  }

  /** Every connection to a listed address has its address among the keys of the finished counts. */
  lemma CountedKeys(conns: Registered, allowed: set<string>, counts: map<string, int>)
    requires Counted(conns, allowed, conns.Keys, counts)
    ensures OnAny(conns, counts.Keys) == OnAny(conns, allowed)
  {
    forall c | c in conns && conns[c] in allowed ensures conns[c] in counts {
      TallyOfSome(conns, c);
    }
  }

  function HowMany(conns: Registered, list: set<string>): nat {
    |OnAny(conns, list)|
  }

  lemma OnAnyNone(conns: Registered)
    ensures HowMany(conns, {}) == 0
  {
    assert OnAny(conns, {}) == {};
  }

  lemma OnAnyMore(conns: Registered, list: set<string>, a: string)
    requires a !in list
    ensures |OnAny(conns, list + {a})| == |OnAny(conns, list)| + Tally(conns, conns.Keys, a)
  {
    var on := Under(conns, conns.Keys, a);
    assert OnAny(conns, list + {a}) == OnAny(conns, list) + on;
    assert OnAny(conns, list) !! on;
  }

  lemma CountedMore(conns: Registered, allowed: set<string>, counts: map<string, int>, done: set<string>, a: string)
    requires Counted(conns, allowed, conns.Keys, counts) && a in counts && a !in done
    ensures HowMany(conns, done + {a}) == HowMany(conns, done) + counts[a]
  {
    OnAnyMore(conns, done, a);
  }

  /** What resolve may return: nothing, the literal address, or the usable ones of the answer, each once. */
  ghost predicate IsResolution(host: string, port: string, literal: Option<string>, lookup: Option<Answer>,
                               list: seq<string>)
  {
    && Increasing(list)
    && if host == "" || port == "" then list == []
       else match literal
            case Some(ip) => list == [JoinHostPort(ip, port)]
            case None => forall a :: a in list <==> lookup.Some? && a in Offered(lookup.value, port)
  }

  /** A name or a port that is missing, or a lookup that fails, resolves to nothing; a literal to itself; and otherwise
      the list has the IPv4 addresses of the answer, in order, each once. */
  lemma ResolutionExactly(host: string, port: string, literal: Option<string>, lookup: Option<Answer>,
                          list: seq<string>)
    requires IsResolution(host, port, literal, lookup, list)
    ensures forall i, j :: 0 <= i < j < |list| ==> list[i] != list[j] && Less(list[i], list[j])
    ensures host == "" || port == "" ==> list == []
    ensures host != "" && port != "" && literal.Some? ==> list == [JoinHostPort(literal.value, port)]
    ensures literal.None? && lookup.None? ==> list == []
    ensures host != "" && port != "" && literal.None? && lookup.Some? ==>
      forall a :: a in list <==>
        exists ip :: ip in lookup.value && ip.Some? && ip.value.isV4 && a == JoinHostPort(ip.value.text, port)
  {
    forall i, j | 0 <= i < j < |list| ensures list[i] != list[j] { IncreasingIsDistinct(list, i, j); }
    if list != [] {
      assert list[0] in list;
    }
  }

  /** How many connections each listed address has. */
  function Shares(conns: Registered, addrs: seq<string>): seq<nat> {
    seq(|addrs|, i requires 0 <= i < |addrs| => Tally(conns, conns.Keys, addrs[i]))
  }

  lemma {:induction false} SharesSum(conns: Registered, addrs: seq<string>)
    requires Increasing(addrs)
    ensures Sum(Shares(conns, addrs)) == |OnAny(conns, set a | a in addrs)|
  {
    if addrs == [] {
      assert OnAny(conns, set a | a in addrs) == {};
    } else {
      var rest := set a | a in addrs[1..];
      assert Shares(conns, addrs)[1..] == Shares(conns, addrs[1..]);
      SharesSum(conns, addrs[1..]);
      assert forall a :: a in addrs <==> a == addrs[0] || a in addrs[1..];
      assert (set a | a in addrs) == rest + {addrs[0]};
      TailIsRest(addrs, addrs[0]);
      OnAnyMore(conns, rest, addrs[0]);
    }
  }

  lemma TallyAfterDial(conns: Registered, conn: TrackedConn, a: string, b: string)
    requires conn !in conns
    ensures
      var conns' := conns[conn := a];
      Tally(conns', conns'.Keys, b) == Tally(conns, conns.Keys, b) + (if b == a then 1 else 0)
  {
    var conns' := conns[conn := a];
    assert Under(conns', conns'.Keys, b) ==
      if b == a then Under(conns, conns.Keys, b) + {conn} else Under(conns, conns.Keys, b);
  }

  lemma SharesAfterDial(conns: Registered, addrs: seq<string>, conn: TrackedConn, i: nat)
    requires i < |addrs| && Increasing(addrs) && conn !in conns
    ensures Shares(conns[conn := addrs[i]], addrs) == Shares(conns, addrs)[i := Shares(conns, addrs)[i] + 1]
  {
    forall j | 0 <= j < |addrs|
      ensures Shares(conns[conn := addrs[i]], addrs)[j] == Shares(conns, addrs)[j] + (if j == i then 1 else 0)
    {
      if j < i { IncreasingIsDistinct(addrs, j, i); } else if i < j { IncreasingIsDistinct(addrs, i, j); }
      TallyAfterDial(conns, conn, addrs[i], addrs[j]);
    }
  }

  /** What a refresh leaves at an address. */
  lemma TallyWithout(conns: Registered, gone: set<TrackedConn>, a: string)
    requires gone <= conns.Keys
    ensures Tally(conns - gone, (conns - gone).Keys, a) == Tally(conns, conns.Keys, a) - Tally(conns, gone, a)
  {
    var all, off := Under(conns, conns.Keys, a), Under(conns, gone, a);
    assert Under(conns - gone, (conns - gone).Keys, a) == all - off;
    assert off <= all;
  }

  /** What RefreshOnce promises about the connections it closes. */
  ghost predicate Trims(conns: Registered, addrs: seq<string>, idle: set<TrackedConn>, gone: set<TrackedConn>)
    requires addrs != []
  {
    && gone <= idle
    && forall a ::
         Tally(conns, gone, a) ==
           if a in addrs then Min(Tally(conns, idle, a), Max(0, Tally(conns, conns.Keys, a) - Allowance(conns, addrs)))
           else Tally(conns, idle, a)
  }

  /** What that comes to, counting connections by address: where the address is no longer listed every idle one goes;
      where it is, none goes that would bring it below its share, and an idle one stays only if that is met. */
  lemma TrimsMeans(conns: Registered, addrs: seq<string>, idle: set<TrackedConn>, gone: set<TrackedConn>, a: string)
    requires addrs != [] && idle <= conns.Keys && Trims(conns, addrs, idle, gone)
    ensures
      var all := |set c | c in conns && conns[c] == a|;
      var left := |set c | c in conns && conns[c] == a && c !in gone|;
      var share := |set c | c in conns && conns[c] in addrs| / |addrs|;
      if a in addrs
      then (left < all ==> left >= 1 && left >= share)
           && (left > 1 && left > share ==> forall c :: c in idle && conns[c] == a ==> c in gone)
      else forall c :: c in idle && conns[c] == a ==> c in gone
  {
    assert (set c | c in conns && conns[c] == a) == Under(conns, conns.Keys, a);
    assert (set c | c in conns && conns[c] == a && c !in gone) == Under(conns - gone, (conns - gone).Keys, a);
    assert (set c | c in conns && conns[c] in addrs) == OnAny(conns, set x | x in addrs);
    TallyWithout(conns, gone, a);
    if Tally(conns, gone, a) == Tally(conns, idle, a) {
      SameTally(conns, gone, idle, a);
    }
  }

  lemma SameTally(conns: Registered, some: set<TrackedConn>, all: set<TrackedConn>, a: string)
    requires some <= all && Tally(conns, some, a) == Tally(conns, all, a)
    ensures forall c :: c in all && c in conns && conns[c] == a ==> c in some
  {
    var part, whole := Under(conns, some, a), Under(conns, all, a);
    assert part <= whole;
    assert |whole - part| == 0;
    forall c | c in all && c in conns && conns[c] == a ensures c in some {
      assert c in whole && c !in whole - part;
    }
  }

  /** An address in use stays in use. */
  lemma RefreshEmptiesNoAddress(conns: Registered, addrs: seq<string>, idle: set<TrackedConn>, gone: set<TrackedConn>,
                                a: string)
    requires addrs != [] && idle <= conns.Keys && Trims(conns, addrs, idle, gone)
    requires a in addrs && Tally(conns, conns.Keys, a) > 0
    ensures Tally(conns - gone, (conns - gone).Keys, a) > 0
  {
    TallyWithout(conns, gone, a);
  }

  /** With every connection idle, a refresh acts on the counts as Balance.Capped. */
  lemma RefreshCapsShares(conns: Registered, addrs: seq<string>, gone: set<TrackedConn>)
    requires addrs != [] && Increasing(addrs) && Trims(conns, addrs, conns.Keys, gone)
    ensures Shares(conns - gone, addrs) == Capped(Shares(conns, addrs))
  {
    SharesSum(conns, addrs);
    var n := Shares(conns, addrs);
    assert Target(n) == Allowance(conns, addrs);
    forall i | 0 <= i < |addrs| ensures Shares(conns - gone, addrs)[i] == Capped(n)[i] {
      TallyWithout(conns, gone, addrs[i]);
    }
  }

  /** With every connection idle and on a listed address, a refresh closes nothing exactly when no address
      has two connections or all have equally many. */
  lemma RefreshClosesNothingExactly(conns: Registered, addrs: seq<string>, gone: set<TrackedConn>)
    requires addrs != [] && Increasing(addrs) && Trims(conns, addrs, conns.Keys, gone)
    requires forall c :: c in conns ==> conns[c] in addrs
    ensures gone == {} <==>
      || (forall a :: a in addrs ==> Tally(conns, conns.Keys, a) <= 1)
      || (forall a, b :: a in addrs && b in addrs ==> Tally(conns, conns.Keys, a) == Tally(conns, conns.Keys, b))
  {
    ClosesNothingWhenSettled(conns, addrs, gone);
    SettledExactly(Shares(conns, addrs));
    SharesOver(conns, addrs);
  }

  lemma ClosesNothingWhenSettled(conns: Registered, addrs: seq<string>, gone: set<TrackedConn>)
    requires addrs != [] && Increasing(addrs) && Trims(conns, addrs, conns.Keys, gone)
    requires forall c :: c in conns ==> conns[c] in addrs
    ensures gone == {} <==> Capped(Shares(conns, addrs)) == Shares(conns, addrs)
  {
    var n := Shares(conns, addrs);
    RefreshCapsShares(conns, addrs, gone);
    if gone == {} {
      assert conns - gone == conns;
    } else {
      var c :| c in gone;
      var i :| 0 <= i < |addrs| && addrs[i] == conns[c];
      TallyWithout(conns, gone, addrs[i]);
      assert c in Under(conns, gone, addrs[i]);
      assert Capped(n)[i] < n[i];
    }
  }

  /** Shares goes by index, the registry by address. */
  lemma SharesOver(conns: Registered, addrs: seq<string>)
    ensures
      var n := Shares(conns, addrs);
      && ((forall i :: 0 <= i < |n| ==> n[i] <= 1) <==> forall a :: a in addrs ==> Tally(conns, conns.Keys, a) <= 1)
      && ((forall i, j :: 0 <= i < |n| && 0 <= j < |n| ==> n[i] == n[j]) <==>
          forall a, b :: a in addrs && b in addrs ==> Tally(conns, conns.Keys, a) == Tally(conns, conns.Keys, b))
  {
    var n := Shares(conns, addrs);
    forall i | 0 <= i < |addrs| ensures n[i] == Tally(conns, conns.Keys, addrs[i]) && addrs[i] in addrs {}
  }

  class DnsDialer {
    const addr: string
    const splitHostPort: string -> Option<(string, string)>
    const parseIP: string -> Option<string>
    var host: string
    var port: string
    var next: nat
    var addrs: seq<string>
    var conns: Registered

    ghost predicate Valid()
      reads this, conns.Keys
    {
      && addrs != [] && Increasing(addrs)
      && next < TWO_64
      && forall c :: c in conns ==> c.dialer == this && conns[c] == c.addr && !c.once && c.underlyingCloses == 0
    }

    /** init: the configured address itself stands in when nothing resolves. */
    constructor (addr: string, splitHostPort: string -> Option<(string, string)>, parseIP: string -> Option<string>,
                 lookup: Option<Answer>)
      ensures Valid() && conns == map[] && next == 0 && this.addr == addr
      ensures match splitHostPort(addr)
              case None => addrs == [addr]
              case Some((h, p)) =>
                exists list ::
                  IsResolution(h, p, parseIP(h), lookup, list) && addrs == if list == [] then [addr] else list
    {
      this.addr, this.splitHostPort, this.parseIP := addr, splitHostPort, parseIP;
      host, port, next, conns := "", "", 0, map[];
      addrs := [addr];
      new;
      match splitHostPort(addr)
      case None =>
      case Some((h, p)) =>
        host, port := h, p;
        var list := Resolve(lookup);
        if |list| != 0 {
          addrs := list;
        }
    }

    /** The addresses to rotate over, or none when the name does not resolve to a usable one. */
    method Resolve(lookup: Option<Answer>) returns (list: seq<string>)
      ensures IsResolution(host, port, parseIP(host), lookup, list)
    {
      if host == "" || port == "" {
        return [];
      }
      match parseIP(host)
      case Some(ip) => list := [JoinHostPort(ip, port)];
      case None =>
        if lookup.None? {
          return [];
        }
        list := Rotation(lookup.value, port);
    }

    method NextAddr() returns (a: string)
      requires Valid()
      modifies this`next
      ensures Valid() && a == addrs[old(next) % |addrs|] && next == (old(next) + 1) % 0x1_0000_0000_0000_0000
    {
      var list := addrs;
      if |list| == 0 {
        return addr;
      }
      var idx := next;
      next := (next + 1) % TWO_64;
      a := list[idx % |list|];
    }

    /** A dial that connects registers the connection under the address the pointer stood at. */
    method Dial(owner: Owner?, connects: bool) returns (conn: TrackedConn?)
      requires Valid()
      modifies this`next, this`conns
      ensures Valid() && next == (old(next) + 1) % TWO_64
      ensures !connects ==> conn == null && conns == old(conns)
      ensures connects ==>
        && conn != null && fresh(conn) && conn.owner == owner && conn.addr == addrs[old(next) % |addrs|]
        && conns == old(conns)[conn := conn.addr]
      ensures forall w: nat :: w > 0 ==>
        Pool(Shares(conns, addrs), if connects then w - 1 else w, next)
        == After(Pool(old(Shares(conns, addrs)), w, old(next)), if connects then Balance.Dial else Balance.DialFails)
    {
      var a := NextAddr();
      if !connects {
        return null;
      }
      conn := new TrackedConn(this, a, owner);
      conns := conns[conn := a];
      SharesAfterDial(old(conns), addrs, conn, old(next) % |addrs|);
    }

    /** Of the connections all, exactly those in gone have been closed, once each, and have left the registry. */
    ghost predicate ClosedExactly(all: Registered, gone: set<TrackedConn>)
      reads this, all.Keys
    {
      && conns == all - gone
      && forall c :: c in all ==>
           && c.dialer == this && c.addr == all[c]
           && c.once == (c in gone) && c.underlyingCloses == (if c in gone then 1 else 0)
    }

    /** One refresh: the new list takes over, and what the rebalancer picked is closed and unregistered. The lock is not
        held for the closing: meanwhile are the connections that others close first. */
    method RefreshOnce(lookup: Option<Answer>, meanwhile: seq<TrackedConn>)
      returns (ghost list: seq<string>, ghost gone: set<TrackedConn>)
      requires Valid() && Chosen(meanwhile) <= conns.Keys
      modifies this`addrs, this`conns, conns.Keys
      ensures Valid() && gone <= old(Idle(conns)) && ClosedExactly(old(conns), gone + Chosen(meanwhile))
      ensures conns == old(conns) - (gone + Chosen(meanwhile))
      ensures forall c :: c in old(conns) ==> c.underlyingCloses == if c in gone || c in meanwhile then 1 else 0
      ensures forall c :: c in gone ==> c in old(conns) && (c.owner == null || old(c.owner.pending) == 0)
      ensures IsResolution(host, port, parseIP(host), lookup, list)
      ensures list == [] ==> addrs == old(addrs) && gone == {}
      ensures list != [] ==> addrs == list
      ensures list != [] ==> Trims(old(conns), list, old(Idle(conns)), gone)
    {
      ghost var all := conns;
      var found := Resolve(lookup);
      list, gone := found, {};
      var toClose := [];
      if |found| != 0 {
        toClose := TakeOver(found);
        gone := Chosen(toClose);
      }
      assert ClosedExactly(all, {});
      CloseAll(meanwhile, all, {});
      CloseAll(toClose, all, {} + Chosen(meanwhile));
      assert {} + Chosen(meanwhile) + Chosen(toClose) == gone + Chosen(meanwhile);
    }

    /** What refreshOnce does under the lock. */
    method TakeOver(found: seq<string>) returns (toClose: seq<TrackedConn>)
      requires Valid() && found != [] && Increasing(found)
      modifies this`addrs
      ensures Valid() && addrs == found && Chosen(toClose) <= old(Idle(conns))
      ensures Trims(conns, found, old(Idle(conns)), Chosen(toClose))
    {
      ghost var idle := Idle(conns);
      addrs := found;
      toClose := RebalanceLocked();
      assert Idle(conns) == idle;
    }

    method CloseOne(c: TrackedConn, ghost all: Registered, ghost gone: set<TrackedConn>)
      requires ClosedExactly(all, gone) && c in all
      modifies this`conns, c`once, c`underlyingCloses
      ensures ClosedExactly(all, gone + {c})
    {
      c.Close();
    }

    method CloseAll(toClose: seq<TrackedConn>, ghost all: Registered, ghost gone: set<TrackedConn>)
      requires ClosedExactly(all, gone) && Chosen(toClose) <= all.Keys
      modifies this`conns, all.Keys
      ensures ClosedExactly(all, gone + Chosen(toClose))
    {
      assert gone + Chosen([]) == gone;
      for i := 0 to |toClose|
        invariant ClosedExactly(all, gone + Chosen(toClose[..i]))
      {
        assert toClose[i] in Chosen(toClose);
        assert toClose[..i + 1] == toClose[..i] + [toClose[i]];
        assert gone + Chosen(toClose[..i + 1]) == gone + Chosen(toClose[..i]) + {toClose[i]};
        CloseOne(toClose[i], all, gone + Chosen(toClose[..i]));
      }
      assert toClose[..|toClose|] == toClose;
    }

    method Remove(conn: TrackedConn)
      modifies this`conns
      ensures conns == old(conns) - {conn}
    {
      conns := conns - {conn};
    }

    /** For every iteration order of the map: a listed address loses as many idle connections as it has
        too many, as far as there are idle ones; an address no longer listed loses its idle ones. */
    method RebalanceLocked() returns (toClose: seq<TrackedConn>)
      ensures |Chosen(toClose)| == |toClose|
      ensures if addrs == [] then toClose == [] else Trims(conns, addrs, Idle(conns), Chosen(toClose))
      ensures forall c :: c in toClose ==> c in conns && (c.owner == null || c.owner.pending == 0)
    {
      toClose := [];
      if addrs == [] {
        return;
      }
      if conns == map[] {
        assert Idle(conns) == {} == Chosen(toClose) == conns.Keys;
        return;
      }
      var allowed := set a | a in addrs;
      var counts := CountAllowed(conns, allowed);
      var total := TotalOf(conns, allowed, counts);
      var target := Max(1, total / |addrs|);
      toClose := PickToClose(conns, addrs, counts, target);
    }

    /** The loop that picks the connections to close, in whatever order the map is walked. */
    static method PickToClose(conns: Registered, addrs: seq<string>, counts0: map<string, int>, target: nat)
      returns (toClose: seq<TrackedConn>)
      requires forall a :: a in addrs ==> Count(counts0, a) == Tally(conns, conns.Keys, a)
      ensures |Chosen(toClose)| == |toClose| && Chosen(toClose) <= Idle(conns)
      ensures forall c :: c in toClose ==> c in conns && (c.owner == null || c.owner.pending == 0)
      ensures forall a ::
        Tally(conns, Chosen(toClose), a) ==
          if a in addrs then Min(Tally(conns, Idle(conns), a), Max(0, Tally(conns, conns.Keys, a) - target))
          else Tally(conns, Idle(conns), a)
    {
      toClose := [];
      var counts := counts0;
      ghost var idleSeen: set<TrackedConn> := {};
      var rest := conns.Keys;
      TrimStart(conns, addrs, counts, target);
      assert Chosen([]) == {};
      while rest != {}
        invariant rest <= conns.Keys && idleSeen <= conns.Keys && idleSeen !! rest
        invariant forall c :: c in conns && c !in rest ==> (c in idleSeen <==> c.IsIdle())
        invariant Chosen(toClose) <= idleSeen && |Chosen(toClose)| == |toClose|
        invariant AllTrimmed(conns, addrs, idleSeen, Chosen(toClose), counts, target)
      {
        var c :| c in rest;
        TrimIdle(conns, addrs, idleSeen, Chosen(toClose), counts, target, c);
        ghost var decremented := Decrement(conns, addrs, counts, c);
        var isAllowed := conns[c] in addrs;
        if (!isAllowed || Count(counts, conns[c]) > target) && c.IsIdle() {
          assert Chosen(toClose + [c]) == Chosen(toClose) + {c};
          toClose := toClose + [c];
          if isAllowed {
            counts := counts[conns[c] := Count(counts, conns[c]) - 1];
          }
          assert counts == decremented;
        }
        if c.IsIdle() {
          idleSeen := idleSeen + {c};
        }
        rest := rest - {c};
      }
      assert idleSeen == Idle(conns);
      forall c | c in toClose ensures c in conns && (c.owner == null || c.owner.pending == 0) {
        assert c in Chosen(toClose);
      }
    }

    /** The first two loops: how many connections each listed address has. */
    static method CountAllowed(conns: Registered, allowed: set<string>) returns (counts: map<string, int>)
      ensures Counted(conns, allowed, conns.Keys, counts)
    {
      counts := map[];
      ghost var seen: set<TrackedConn> := {};
      var rest := conns.Keys;
      forall a ensures Tally(conns, {}, a) == 0 { TallyNone(conns, a); }
      while rest != {}
        invariant rest !! seen && rest + seen == conns.Keys && Counted(conns, allowed, seen, counts)
      {
        var c :| c in rest;
        CountAnother(conns, allowed, seen, counts, c);
        if conns[c] in allowed {
          counts := counts[conns[c] := Count(counts, conns[c]) + 1];
        }
        rest, seen := rest - {c}, seen + {c};
      }
      assert seen == conns.Keys;
    }

    static method TotalOf(conns: Registered, allowed: set<string>, counts: map<string, int>) returns (total: nat)
      requires Counted(conns, allowed, conns.Keys, counts)
      ensures total == |OnAny(conns, allowed)|
    {
      total := 0;
      var rest := counts.Keys;
      ghost var done: set<string> := {};
      OnAnyNone(conns);
      while rest != {}
        invariant done <= counts.Keys && rest == counts.Keys - done
        invariant total == HowMany(conns, done)
      {
        var a :| a in rest;
        CountedMore(conns, allowed, counts, done, a);
        total := total + counts[a];
        rest, done := rest - {a}, done + {a};
      }
      assert done == counts.Keys;
      CountedKeys(conns, allowed, counts);
    }
  }
}
