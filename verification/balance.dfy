/** How evenly the dialer spreads connections over L resolved addresses.

    n[i] is the number of open connections to the i-th address. Every connection here is
    idle and on a listed address; what rebalanceLocked does to busy ones and to
    unlisted addresses is proved about the method itself, in module Dialer. */
module Balance {

  const TWO_64: nat := 0x1_0000_0000_0000_0000

  function Min(a: int, b: int): int { if a <= b then a else b }

  function Max(a: int, b: int): int { if a >= b then a else b }

  function Sum(n: seq<nat>): nat {
    if n == [] then 0 else n[0] + Sum(n[1..])
  }

  /** The number of connections rebalanceLocked leaves at each address at most. */
  function Target(n: seq<nat>): nat
    requires n != []
  {
    Max(1, Sum(n) / |n|)
  }

  /** The counts after one refresh that closes and redials nothing else. */
  function Capped(n: seq<nat>): seq<nat>
    requires n != []
  {
    seq(|n|, i requires 0 <= i < |n| => Min(n[i], Target(n)))
  }

  function Refreshed(n: seq<nat>, k: nat): seq<nat>
    requires n != []
    decreases k
  {
    if k == 0 then n else Refreshed(Capped(n), k - 1)
  }

  // ---- Sums ----

  lemma {:induction false} SumAtLeast(n: seq<nat>, low: nat)
    requires forall i :: 0 <= i < |n| ==> low <= n[i]
    ensures low * |n| <= Sum(n)
  {
    if n != [] {
      SumAtLeast(n[1..], low);
      assert low * |n| == low + low * |n[1..]|;
    }
  }

  lemma {:induction false} SumConstant(n: seq<nat>, v: nat)
    requires forall i :: 0 <= i < |n| ==> n[i] == v
    ensures Sum(n) == v * |n|
  {
    if n != [] {
      SumConstant(n[1..], v);
      assert v * |n| == v + v * |n[1..]|;
    }
  }

  lemma {:induction false} SumAtMost(m: seq<nat>, n: seq<nat>)
    requires |m| == |n| && forall i :: 0 <= i < |n| ==> m[i] <= n[i]
    ensures Sum(m) <= Sum(n)
    ensures Sum(m) == Sum(n) ==> m == n
  {
    if n != [] {
      SumAtMost(m[1..], n[1..]);
      assert m == [m[0]] + m[1..] && n == [n[0]] + n[1..];
    }
  }

  lemma {:induction false} SumUpdate(n: seq<nat>, i: nat, v: nat)
    requires i < |n|
    ensures Sum(n[i := v]) == Sum(n) - n[i] + v
  {
    if i == 0 {
      assert n[i := v][1..] == n[1..];
    } else {
      assert n[i := v][1..] == n[1..][i - 1 := v];
      SumUpdate(n[1..], i - 1, v);
    }
  }

  // ---- Division ----

  lemma MulMono(a: int, b: int, len: nat)
    requires a <= b
    ensures a * len <= b * len
  {
    assert (b - a) * len >= 0;
  }

  lemma MulSucc(a: int, len: int)
    ensures (a + 1) * len == a * len + len
  {
  }

  lemma DivAtLeast(sum: nat, q: nat, len: nat)
    requires len > 0 && q * len <= sum
    ensures q <= sum / len
  {
    if sum / len < q {
      MulMono(sum / len + 1, q, len);
    }
  }

  lemma DivIs(sum: nat, q: nat, extra: nat, len: nat)
    requires extra < len && sum == q * len + extra
    ensures sum / len == q && sum % len == extra
  {
    var d := sum / len - q;
    assert d * len == extra - sum % len;
    if d >= 1 {
      MulMono(1, d, len);
    } else if d <= -1 {
      MulMono(d, -1, len);
    }
  }

  // ---- When a refresh closes nothing ----

  /** A refresh closes nothing exactly when every address has at most one connection or all have equally many. */
  lemma SettledExactly(n: seq<nat>)
    requires n != []
    ensures Capped(n) == n <==>
            (forall i :: 0 <= i < |n| ==> n[i] <= 1) || (forall i, j :: 0 <= i < |n| && 0 <= j < |n| ==> n[i] == n[j])
  {
    if forall i, j :: 0 <= i < |n| && 0 <= j < |n| ==> n[i] == n[j] {
      SumConstant(n, n[0]);
      DivIs(Sum(n), n[0], 0, |n|);
    } else if (exists i :: 0 <= i < |n| && n[i] > 1) && (forall i :: 0 <= i < |n| ==> n[i] <= Target(n)) {
      AllAtAverage(n);
    }
    if Capped(n) == n {
      forall i | 0 <= i < |n| ensures n[i] <= Target(n) { assert Capped(n)[i] == n[i]; }
    }
  }

  /** Counts none of which exceeds the average are all equal to it. */
  lemma AllAtAverage(n: seq<nat>)
    requires n != [] && forall i :: 0 <= i < |n| ==> n[i] <= Target(n)
    requires exists i :: 0 <= i < |n| && n[i] > 1
    ensures forall i :: 0 <= i < |n| ==> n[i] == Target(n)
  {
    var t := Target(n);
    assert t == Sum(n) / |n| && t * |n| <= Sum(n);
    var level := seq(|n|, _ => t);
    SumConstant(level, t);
    SumAtMost(n, level);
    assert n == level;
  }

  // ---- Refreshing again and again without redials ----

  function Lowest(n: seq<nat>): nat
    requires n != []
  {
    if |n| == 1 then n[0] else Min(n[0], Lowest(n[1..]))
  }

  lemma {:induction false} LowestIs(n: seq<nat>)
    requires n != []
    ensures exists i :: 0 <= i < |n| && n[i] == Lowest(n)
    ensures forall i :: 0 <= i < |n| ==> Lowest(n) <= n[i]
  {
    if |n| == 1 {
      assert n[0] == Lowest(n);
    } else {
      LowestIs(n[1..]);
      var i :| 0 <= i < |n[1..]| && n[1..][i] == Lowest(n[1..]);
      assert n[i + 1] == Lowest(n[1..]) && (n[0] == Lowest(n) || n[i + 1] == Lowest(n));
      forall j | 0 <= j < |n| ensures Lowest(n) <= n[j] { assert j > 0 ==> n[j] == n[1..][j - 1]; }
    }
  }

  /** What refreshes end in: the emptiest address decides, but an address in use keeps one connection. */
  function Settled(n: seq<nat>): seq<nat>
    requires n != []
  {
    seq(|n|, i requires 0 <= i < |n| => Min(n[i], Max(1, Lowest(n))))
  }

  lemma CappedKeepsSettled(n: seq<nat>)
    requires n != []
    ensures Settled(Capped(n)) == Settled(n)
    ensures Capped(n) == n ==> Settled(n) == n
    ensures Capped(n) != n ==> Sum(Capped(n)) < Sum(n)
  {
    var m, t, low := Capped(n), Target(n), Lowest(n);
    LowestIs(n);
    LowestIs(m);
    SumFloor(n);
    SumAtMost(m, n);
    assert low <= t;
    assert Lowest(m) == low;
    SettledExactly(n);
    assert Capped(n) == n ==> Settled(n) == n;
  }

  /** The average is at least the lowest count. */
  lemma SumFloor(n: seq<nat>)
    requires n != []
    ensures Lowest(n) <= Target(n)
  {
    LowestIs(n);
    SumAtLeast(n, Lowest(n));
    DivAtLeast(Sum(n), Lowest(n), |n|);
  }

  /** Repeated refreshes without redials reach a state that further refreshes leave alone, after at
      most as many rounds as there are connections, and that state has a closed form. */
  lemma {:induction false} RefreshesSettle(n: seq<nat>, k: nat)
    requires n != [] && Sum(n) <= k
    ensures Refreshed(n, k) == Settled(n) && Capped(Settled(n)) == Settled(n)
    decreases k
  {
    CappedKeepsSettled(n);
    if Capped(n) == n {
      StaysSettled(n, k);
    } else {
      RefreshesSettle(Capped(n), k - 1);
    }
  }

  lemma {:induction false} StaysSettled(n: seq<nat>, k: nat)
    requires n != [] && Capped(n) == n
    ensures Refreshed(n, k) == n
    decreases k
  {
    if k > 0 {
      StaysSettled(n, k - 1);
    }
  }

  // ---- Refresh, close, redial: the counts stay level ----

  /** waiting clients have no connection and will dial; next is the round-robin pointer. */
  datatype Pool = Pool(n: seq<nat>, waiting: nat, next: nat)

  /** A dial that fails has still moved the pointer. */
  datatype Event = Dial | DialFails | Refresh

  predicate Possible(p: Pool, e: Event) {
    p.n != [] && (e.Dial? || e.DialFails? ==> p.waiting > 0)
  }

  function After(p: Pool, e: Event): Pool
    requires Possible(p, e)
  {
    match e
    case Dial =>
      var i := p.next % |p.n|;
      Pool(p.n[i := p.n[i] + 1], p.waiting - 1, (p.next + 1) % TWO_64)
    case DialFails => p.(next := (p.next + 1) % TWO_64)
    case Refresh =>
      SumAtMost(Capped(p.n), p.n);
      Pool(Capped(p.n), p.waiting + Sum(p.n) - Sum(Capped(p.n)), p.next)
  }

  predicate IsHistory(p: Pool, events: seq<Event>)
    decreases |events|
  {
    events == [] || (Possible(p, events[0]) && IsHistory(After(p, events[0]), events[1..]))
  }

  function History(p: Pool, events: seq<Event>): Pool
    requires IsHistory(p, events)
    decreases |events|
  {
    if events == [] then p else History(After(p, events[0]), events[1..])
  }

  /** How many dials before the latest one the pointer stood at address i. */
  function Age(next: nat, i: nat, len: nat): nat
    requires len > 0
  {
    (next - 1 - i) % len
  }

  /** d turns around len addresses: d * len. */
  function Turns(d: nat, len: nat): nat {
    if d == 0 then 0 else Turns(d - 1, len) + len
  }

  lemma {:induction false} TurnsIs(d: nat, len: nat)
    ensures Turns(d, len) == d * len
  {
    if d > 0 {
      TurnsIs(d - 1, len);
      assert d * len == (d - 1) * len + len;
    }
  }

  /** Every address has base connections, and the extra addresses the pointer visited last have one more. */
  ghost predicate Level(p: Pool, base: nat, extra: nat) {
    && 0 <= extra < |p.n|
    && Sum(p.n) == Turns(base, |p.n|) + extra
    && forall i :: 0 <= i < |p.n| ==> p.n[i] == base + (if Age(p.next, i, |p.n|) < extra then 1 else 0)
  }

  /** No address has two connections more than another. */
  ghost predicate Even(n: seq<nat>) {
    forall i, j :: 0 <= i < |n| && 0 <= j < |n| ==> n[i] <= n[j] + 1
  }

  lemma ModSucc(a: int, len: nat)
    requires len > 0
    ensures (a + 1) % len == if a % len == len - 1 then 0 else a % len + 1
  {
    var q, r := a / len, a % len;
    assert a == q * len + r;
    if r == len - 1 {
      ModIs(a + 1, q + 1, 0, len);
    } else {
      ModIs(a + 1, q, r + 1, len);
    }
  }

  lemma ModIs(a: int, q: int, r: nat, len: nat)
    requires r < len && a == q * len + r
    ensures a % len == r
  {
    var d := a / len - q;
    assert d * len == r - a % len;
    if d >= 1 {
      MulMono(1, d, len);
    } else if d <= -1 {
      MulMono(d, -1, len);
    }
  }

  /** The pointer wraps harmlessly when the number of addresses divides 2^64. */
  predicate Aligned(next: nat, len: nat)
    requires len > 0
  {
    next + 1 < TWO_64 || TWO_64 % len == 0
  }

  /** The pointer does not wrap in the next dials, or wraps harmlessly. */
  predicate Room(p: Pool, dials: nat)
    requires p.n != []
  {
    p.next < TWO_64 && (p.next + dials < TWO_64 || TWO_64 % |p.n| == 0)
  }

  lemma AgeUnwrapped(next: nat, i: nat, len: nat)
    requires i < len && next < TWO_64 && Aligned(next, len)
    ensures Age((next + 1) % TWO_64, i, len) == (next - i) % len
  {
    if next + 1 == TWO_64 {
      var turns := TWO_64 / len;
      assert (next + 1) % TWO_64 == 0 && TWO_64 == turns * len;
      var q, r := (next - i) / len, (next - i) % len;
      assert -1 - i == next - i - turns * len == (q - turns) * len + r;
      ModIs(-1 - i, q - turns, r, len);
    } else {
      assert (next + 1) % TWO_64 == next + 1;
    }
  }

  lemma AgeZero(next: nat, i: nat, len: nat)
    requires i < len
    ensures (next - i) % len == 0 <==> i == next % len
  {
    if i == next % len {
      ModIs(next - i, next / len, 0, len);
    } else if (next - i) % len == 0 {
      ModIs(next, (next - i) / len, i, len);
    }
  }

  lemma AgeAfterDial(next: nat, i: nat, len: nat)
    requires i < len && next < TWO_64 && Aligned(next, len)
    ensures
      var age, age' := Age(next, i, len), Age((next + 1) % TWO_64, i, len);
      && age' == (if age == len - 1 then 0 else age + 1)
      && (age' == 0 <==> i == next % len)
  {
    AgeUnwrapped(next, i, len);
    AgeZero(next, i, len);
    ModSucc(next - 1 - i, len);
  }

  lemma DialKeepsLevel(p: Pool, base: nat, extra: nat)
    requires Level(p, base, extra) && p.waiting > 0 && p.next < TWO_64 && Aligned(p.next, |p.n|)
    ensures
      if extra + 1 < |p.n| then Level(After(p, Dial), base, extra + 1) else Level(After(p, Dial), base + 1, 0)
  {
    var len := |p.n|;
    SumUpdate(p.n, p.next % len, p.n[p.next % len] + 1);
    forall i | 0 <= i < len
      ensures
        var age, age' := Age(p.next, i, len), Age((p.next + 1) % TWO_64, i, len);
        && age' == (if age == len - 1 then 0 else age + 1)
        && (age' == 0 <==> i == p.next % len)
    {
      AgeAfterDial(p.next, i, len);
    }
  }

  lemma RefreshKeepsLevel(p: Pool, base: nat, extra: nat)
    requires Level(p, base, extra)
    ensures Level(After(p, Refresh), base, if base == 0 then extra else 0)
    ensures Sum(p.n) - Sum(After(p, Refresh).n) == if base == 0 then 0 else Sum(p.n) % |p.n|
  {
    TurnsIs(base, |p.n|);
    DivIs(Sum(p.n), base, extra, |p.n|);
    if base == 0 {
      assert Capped(p.n) == p.n;
    } else {
      forall i | 0 <= i < |p.n| ensures Capped(p.n)[i] == base { assert p.n[i] >= base; }
      SumConstant(Capped(p.n), base);
    }
  }

  lemma EventKeepsLevel(p: Pool, e: Event, base: nat, extra: nat) returns (base': nat, extra': nat)
    requires Level(p, base, extra) && Possible(p, e) && !e.DialFails? && Room(p, 1)
    ensures Level(After(p, e), base', extra') && |After(p, e).n| == |p.n|
    ensures Sum(After(p, e).n) + After(p, e).waiting == Sum(p.n) + p.waiting
  {
    if e.Dial? {
      DialKeepsLevel(p, base, extra);
      SumUpdate(p.n, p.next % |p.n|, p.n[p.next % |p.n|] + 1);
      if extra + 1 < |p.n| {
        base', extra' := base, extra + 1;
      } else {
        base', extra' := base + 1, 0;
      }
    } else {
      RefreshKeepsLevel(p, base, extra);
      base', extra' := base, if base == 0 then extra else 0;
    }
  }

  lemma RoomAfterEvent(p: Pool, e: Event, more: nat)
    requires Possible(p, e) && Room(p, more + 1)
    ensures |After(p, e).n| == |p.n| && Room(After(p, e), more)
  {
  }

  predicate NoFailure(events: seq<Event>) {
    forall e :: e in events ==> !e.DialFails?
  }
  /** Dials and refreshes in any order, from any pointer. */
  lemma {:induction false} HistoryKeepsLevel(p: Pool, events: seq<Event>, base: nat, extra: nat)
    returns (base': nat, extra': nat)
    requires Level(p, base, extra) && IsHistory(p, events) && NoFailure(events)
    requires Room(p, |events|)
    ensures Level(History(p, events), base', extra') && |History(p, events).n| == |p.n|
    ensures Sum(History(p, events).n) + History(p, events).waiting == Sum(p.n) + p.waiting
    decreases |events|
  {
    if events == [] {
      base', extra' := base, extra;
    } else {
      assert events[0] in events;
      RoomAfterEvent(p, events[0], |events| - 1);
      base', extra' := EventKeepsLevel(p, events[0], base, extra);
      base', extra' := HistoryKeepsLevel(After(p, events[0]), events[1..], base', extra');
    }
  }

  /** clients connections are dialed over len addresses, starting wherever the pointer stands, with
      refreshes at any moment and no dial failing. No address ever has two connections more than another, no
      connection is lost, and the next refresh closes at most clients mod len of them once all are back. */
  lemma DialsAndRefreshesStayEven(len: nat, clients: nat, next: nat, events: seq<Event>)
    requires len > 0 && IsHistory(Pool(seq(len, _ => 0), clients, next), events) && NoFailure(events)
    requires next + |events| < TWO_64 || (next < TWO_64 && TWO_64 % len == 0)
    ensures
      var p := History(Pool(seq(len, _ => 0), clients, next), events);
      && |p.n| == len && Even(p.n) && Sum(p.n) + p.waiting == clients
      && (p.waiting == 0 ==> Sum(p.n) - Sum(Capped(p.n)) == if clients < len then 0 else clients % len)
  {
    var none := seq(len, _ => 0);
    var start := Pool(none, clients, next);
    SumConstant(none, 0);
    assert Level(start, 0, 0);
    var base, extra := HistoryKeepsLevel(start, events, 0, 0);
    var p := History(start, events);
    RefreshKeepsLevel(p, base, extra);
    if p.waiting == 0 {
      TurnsIs(base, len);
      assert Sum(p.n) == clients == base * len + extra;
      if base == 0 {
        assert clients < len;
      } else {
        MulMono(1, base, len);
      }
    }
  }

  // ---- From any counts: refresh, close, redial, over and over ----

  /** Every waiting client dials, and every dial connects. */
  function DialAll(p: Pool): Pool
    requires p.n != []
    decreases p.waiting
  {
    if p.waiting == 0 then p else DialAll(After(p, Dial))
  }

  /** One cycle: the rebalancer closes what is too much, and those clients dial again. */
  function Cycle(p: Pool): Pool
    requires p.n != []
  {
    DialAll(After(p, Refresh))
  }

  lemma {:induction false} DialAllKeepsTotal(p: Pool)
    requires p.n != []
    ensures |DialAll(p).n| == |p.n| && DialAll(p).waiting == 0 && Sum(DialAll(p).n) == Sum(p.n) + p.waiting
    decreases p.waiting
  {
    if p.waiting > 0 {
      SumUpdate(p.n, p.next % |p.n|, p.n[p.next % |p.n|] + 1);
      DialAllKeepsTotal(After(p, Dial));
    }
  }

  function Cycles(p: Pool, k: nat): Pool
    requires p.n != []
    decreases k
  {
    DialAllKeepsTotal(After(p, Refresh));
    if k == 0 then p else Cycles(Cycle(p), k - 1)
  }

  lemma RoomAfterDial(p: Pool, more: nat)
    requires p.n != [] && p.waiting > 0 && Room(p, more + 1)
    ensures Room(After(p, Dial), more) && Aligned(p.next, |p.n|)
  {
  }

  lemma {:induction false} DialAllKeepsRoom(p: Pool, more: nat)
    requires p.n != [] && Room(p, p.waiting + more)
    ensures |DialAll(p).n| == |p.n| && Room(DialAll(p), more)
    decreases p.waiting
  {
    DialAllKeepsTotal(p);
    if p.waiting > 0 {
      RoomAfterDial(p, p.waiting - 1 + more);
      DialAllKeepsRoom(After(p, Dial), more);
    }
  }

  lemma {:induction false} DialAllKeepsLevel(p: Pool, base: nat, extra: nat)
    requires Level(p, base, extra) && Room(p, p.waiting)
    ensures Even(DialAll(p).n)
    decreases p.waiting
  {
    if p.waiting > 0 {
      RoomAfterDial(p, p.waiting - 1);
      DialKeepsLevel(p, base, extra);
      if extra + 1 < |p.n| {
        DialAllKeepsLevel(After(p, Dial), base, extra + 1);
      } else {
        DialAllKeepsLevel(After(p, Dial), base + 1, 0);
      }
    }
  }

  /** Where every address has equally many, dialing from any pointer ends in even counts. */
  lemma DialAllFromEqual(p: Pool, base: nat)
    requires p.n != [] && Room(p, p.waiting) && forall i :: 0 <= i < |p.n| ==> p.n[i] == base
    ensures Even(DialAll(p).n)
  {
    SumConstant(p.n, base);
    TurnsIs(base, |p.n|);
    assert Level(p, base, 0);
    DialAllKeepsLevel(p, base, 0);
  }

  lemma SumBelow(n: seq<nat>, i: nat, high: nat)
    requires i < |n| && n[i] < high && forall j :: 0 <= j < |n| ==> n[j] <= high
    ensures Sum(n) < high * |n|
  {
    var highest := seq(|n|, _ => high);
    SumConstant(highest, high);
    SumAtMost(n, highest);
    assert n[i] != highest[i];
  }

  /** The total of even counts lies within one turn above the lowest count everywhere. */
  lemma EvenTotal(n: seq<nat>)
    requires n != [] && Even(n)
    ensures Lowest(n) * |n| <= Sum(n) < Lowest(n) * |n| + |n|
    ensures forall i :: 0 <= i < |n| ==> Lowest(n) <= n[i] <= Lowest(n) + 1
  {
    LowestIs(n);
    var i :| 0 <= i < |n| && n[i] == Lowest(n);
    SumAtLeast(n, n[i]);
    SumBelow(n, i, n[i] + 1);
    MulSucc(n[i], |n|);
  }

  /** A refresh of even counts brings all of them down to the lowest, unless some address has none. */
  lemma EvenRefresh(n: seq<nat>)
    requires n != [] && Even(n)
    ensures Lowest(n) == 0 ==> Capped(n) == n
    ensures Lowest(n) > 0 ==> forall i :: 0 <= i < |n| ==> Capped(n)[i] == Lowest(n)
    ensures Sum(n) - Sum(Capped(n)) == if Lowest(n) == 0 then 0 else Sum(n) % |n|
  {
    var low, extra := Lowest(n), Sum(n) - Lowest(n) * |n|;
    EvenTotal(n);
    DivIs(Sum(n), low, extra, |n|);
    assert Target(n) == Max(1, low);
    if low == 0 {
      assert Capped(n) == n;
    } else {
      SumConstant(Capped(n), low);
    }
  }

  /** Even counts stay even over a cycle, wherever the pointer stands and whichever addresses have one more; and the
      cycle closes n mod L connections, or none. */
  lemma EvenStaysEven(p: Pool)
    requires p.n != [] && Even(p.n) && p.waiting == 0 && Room(p, After(p, Refresh).waiting)
    ensures Even(Cycle(p).n)
    ensures Sum(p.n) - Sum(Capped(p.n)) == if Lowest(p.n) == 0 then 0 else Sum(p.n) % |p.n|
  {
    EvenRefresh(p.n);
    if Lowest(p.n) > 0 {
      DialAllFromEqual(After(p, Refresh), Lowest(p.n));
    }
  }

  /** And at every moment between: from any even counts, over any history of refreshes and successful dials, counts are
      even and no client is lost. */
  lemma {:induction false} EvenOverHistory(p: Pool, events: seq<Event>)
    requires p.n != [] && Even(p.n) && p.waiting == 0 && IsHistory(p, events) && NoFailure(events)
    requires Room(p, |events|)
    ensures
      var end := History(p, events);
      |end.n| == |p.n| && Even(end.n) && Sum(end.n) + end.waiting == Sum(p.n)
    decreases |events|
  {
    if events != [] {
      assert events[0].Refresh?;
      RoomAfterEvent(p, Refresh, |events| - 1);
      EvenRefresh(p.n);
      var refreshed := After(p, Refresh);
      if Lowest(p.n) == 0 {
        EvenOverHistory(refreshed, events[1..]);
      } else {
        SumConstant(refreshed.n, Lowest(p.n));
        TurnsIs(Lowest(p.n), |p.n|);
        assert Level(refreshed, Lowest(p.n), 0);
        var base, extra := HistoryKeepsLevel(refreshed, events[1..], Lowest(p.n), 0);
      }
    }
  }

  /** How far each address is below the target. */
  function Short(n: seq<nat>, target: nat): seq<nat> {
    seq(|n|, i requires 0 <= i < |n| => Max(0, target - n[i]))
  }

  function Deficit(n: seq<nat>, target: nat): nat { Sum(Short(n, target)) }

  /** Nothing is below the target, or address i is, and as many turns as the deficit and the pointer's way to i come to
      at most potential. */
  ghost predicate Near(p: Pool, target: nat, i: nat, potential: int) {
    Deficit(p.n, target) == 0 ||
    (&& i < |p.n| && p.n[i] < target
     && Turns(Deficit(p.n, target), |p.n|) + |p.n| - 1 - Age(p.next, i, |p.n|) <= potential)
  }

  lemma DeficitOf(n: seq<nat>, target: nat)
    ensures Deficit(n, target) == 0 <==> forall i :: 0 <= i < |n| ==> n[i] >= target
  {
    var s := Short(n, target);
    if forall i :: 0 <= i < |n| ==> n[i] >= target {
      SumConstant(s, 0);
    } else {
      var i :| 0 <= i < |n| && n[i] < target;
      SumUpdate(s, i, 0);
    }
  }

  lemma DeficitAfterDial(n: seq<nat>, target: nat, i: nat)
    requires i < |n|
    ensures Deficit(n[i := n[i] + 1], target) == Deficit(n, target) - (if n[i] < target then 1 else 0)
  {
    var v := Max(0, target - (n[i] + 1));
    SumUpdate(Short(n, target), i, v);
    assert Short(n[i := n[i] + 1], target) == Short(n, target)[i := v];
  }

  lemma AgeWithin(next: nat, i: nat, len: nat)
    requires len > 0
    ensures 0 <= Age(next, i, len) < len
  {
  }

  /** Some address is below the target as long as there is a deficit, and the pointer is less than a turn away. */
  lemma NearSome(p: Pool, target: nat, potential: int) returns (i: nat)
    requires p.n != []
    requires Deficit(p.n, target) > 0 ==> Turns(Deficit(p.n, target), |p.n|) + |p.n| - 1 <= potential
    ensures Near(p, target, i, potential)
  {
    i := 0;
    DeficitOf(p.n, target);
    if Deficit(p.n, target) > 0 {
      i :| 0 <= i < |p.n| && p.n[i] < target;
      AgeWithin(p.next, i, |p.n|);
    }
  }

  /** Every dial makes good part of the deficit or brings the pointer nearer to where there is some. */
  lemma DialCloses(p: Pool, target: nat, i: nat, potential: int) returns (i': nat)
    requires p.n != [] && p.waiting > 0 && Room(p, 1) && Near(p, target, i, potential)
    ensures Near(After(p, Dial), target, i', potential - 1)
  {
    var p', at := After(p, Dial), p.next % |p.n|;
    i' := i;
    DeficitAfterDial(p.n, target, at);
    if Deficit(p'.n, target) > 0 {
      AgeAfterDial(p.next, i, |p.n|);
      if i == at {
        AgeWithin(p.next, i, |p.n|);
        i' := NearSome(p', target, potential - 1);
      } else {
        DialPasses(p, target, i, potential);
      }
    }
  }

  /** A dial at another address brings the pointer one nearer to i, and adds to no deficit. */
  lemma DialPasses(p: Pool, target: nat, i: nat, potential: int)
    requires p.n != [] && p.waiting > 0 && i < |p.n| && i != p.next % |p.n|
    requires Age(p.next, i, |p.n|) + 1 == Age((p.next + 1) % TWO_64, i, |p.n|)
    requires Deficit(After(p, Dial).n, target) in {Deficit(p.n, target), Deficit(p.n, target) - 1}
    requires Near(p, target, i, potential)
    ensures Near(After(p, Dial), target, i, potential - 1)
  {
  }

  lemma {:induction false} DialAllCloses(p: Pool, target: nat, i: nat, potential: int) returns (i': nat)
    requires p.n != [] && Room(p, p.waiting) && Near(p, target, i, potential)
    ensures |DialAll(p).n| == |p.n| && Near(DialAll(p), target, i', potential - p.waiting)
    decreases p.waiting
  {
    DialAllKeepsTotal(p);
    i' := i;
    if p.waiting > 0 {
      i' := DialCloses(p, target, i, potential);
      i' := DialAllCloses(After(p, Dial), target, i', potential - 1);
    }
  }

  /** Capping takes nothing from an address below the target. */
  lemma RefreshKeepsNear(p: Pool, i: nat, potential: int)
    requires p.n != [] && Near(p, Target(p.n), i, potential)
    ensures Near(After(p, Refresh), Target(p.n), i, potential)
  {
    assert Short(Capped(p.n), Target(p.n)) == Short(p.n, Target(p.n));
  }

  /** A cycle that closes anything gets nearer by as much as it closes. */
  lemma CycleCloses(p: Pool, i: nat, potential: int) returns (i': nat)
    requires p.n != [] && p.waiting == 0 && Room(p, Sum(p.n)) && Near(p, Target(p.n), i, potential)
    ensures |Cycle(p).n| == |p.n| && Cycle(p).waiting == 0 && Sum(Cycle(p).n) == Sum(p.n)
    ensures Near(Cycle(p), Target(p.n), i', potential - (Sum(p.n) - Sum(Capped(p.n))))
  {
    RefreshKeepsNear(p, i, potential);
    DialAllKeepsTotal(After(p, Refresh));
    i' := DialAllCloses(After(p, Refresh), Target(p.n), i, potential);
  }

  /** Once nothing is below the target, or nothing above it, one cycle makes the counts even. */
  lemma LastCycle(p: Pool)
    requires p.n != [] && p.waiting == 0 && Room(p, Sum(p.n))
    requires Deficit(p.n, Target(p.n)) == 0 || Capped(p.n) == p.n
    ensures Even(Cycle(p).n) && (Capped(p.n) == p.n ==> Cycle(p) == p)
  {
    if Capped(p.n) == p.n {
      SettledExactly(p.n);
    } else {
      DeficitOf(p.n, Target(p.n));
      DialAllFromEqual(After(p, Refresh), Target(p.n));
    }
  }

  lemma CycleKeepsRoom(p: Pool, more: nat)
    requires p.n != [] && p.waiting == 0 && Room(p, Sum(p.n) + more)
    ensures |Cycle(p).n| == |p.n| && Cycle(p).waiting == 0 && Sum(Cycle(p).n) == Sum(p.n)
    ensures Room(p, Sum(p.n)) && Room(Cycle(p), more)
  {
    DialAllKeepsTotal(After(p, Refresh));
    DialAllKeepsRoom(After(p, Refresh), more);
  }

  lemma {:induction false} CyclesStayEven(p: Pool, k: nat)
    requires p.n != [] && Even(p.n) && p.waiting == 0 && Room(p, Turns(k, Sum(p.n)))
    ensures Even(Cycles(p, k).n)
    decreases k
  {
    if k > 0 {
      CycleKeepsRoom(p, Turns(k - 1, Sum(p.n)));
      EvenStaysEven(p);
      CyclesStayEven(Cycle(p), k - 1);
    }
  }

  lemma {:induction false} CyclesRecoverFrom(p: Pool, i: nat, potential: int, k: nat)
    requires p.n != [] && p.waiting == 0 && Room(p, Turns(k, Sum(p.n))) && Near(p, Target(p.n), i, potential)
    requires k > 0 && potential < |p.n| + k - 1
    ensures Even(Cycles(p, k).n)
    decreases k
  {
    CycleKeepsRoom(p, Turns(k - 1, Sum(p.n)));
    if Deficit(p.n, Target(p.n)) == 0 || Capped(p.n) == p.n {
      LastCycle(p);
      CyclesStayEven(Cycle(p), k - 1);
    } else {
      CappedKeepsSettled(p.n);
      var i' := CycleCloses(p, i, potential);
      CyclesRecoverFrom(Cycle(p), i', potential - 1, k - 1);
    }
  }

  /** What the rebalancer is for. Whatever the counts, and however they came about, the cycles that close what is too
      much and dial it again reach even counts, at the latest when every address has had its turn for each
      connection some address lacked, and stay there. */
  lemma CyclesRecover(p: Pool, k: nat)
    requires p.n != [] && p.waiting == 0 && Room(p, k * Sum(p.n))
    requires k > Deficit(p.n, Target(p.n)) * |p.n|
    ensures Even(Cycles(p, k).n)
  {
    var target := Target(p.n);
    var i := NearSome(p, target, Turns(Deficit(p.n, target), |p.n|) + |p.n| - 1);
    TurnsIs(Deficit(p.n, target), |p.n|);
    TurnsIs(k, Sum(p.n));
    CyclesRecoverFrom(p, i, Turns(Deficit(p.n, target), |p.n|) + |p.n| - 1, k);
  }

  /** A dial that fails is all it takes to make counts uneven. */
  lemma FailureMayUnbalance() returns (events: seq<Event>)
    ensures IsHistory(Pool([0, 0], 2, 0), events)
    ensures History(Pool([0, 0], 2, 0), events).n == [2, 0] && !Even([2, 0])
  {
    events := [Dial, DialFails, Dial];
    var start := Pool([0, 0], 2, 0);
    var first := After(start, Dial);
    var second := After(first, DialFails);
    assert first == Pool([1, 0], 1, 1) && second == Pool([1, 0], 1, 2);
    assert After(second, Dial) == Pool([2, 0], 0, 3);
    assert events[1..] == [DialFails, Dial] && events[2..] == [Dial] && events[3..] == [];
    assert History(second, [Dial]) == History(After(second, Dial), [Dial][1..]);
    var n: seq<nat> := [2, 0];
    assert n[0] > n[1] + 1;
  }

  /** Level counts after a dial failed and s more connected, whole turns of which are in base: the s addresses visited
      last have one more, the one skipped before them has not, and the extra ones before that have one more. */
  ghost predicate Skewed(p: Pool, base: nat, extra: nat, s: nat) {
    && s < |p.n| && extra < |p.n|
    && forall i :: 0 <= i < |p.n| ==> p.n[i] == base + SkewAt(Age(p.next, i, |p.n|), |p.n|, extra, s)
  }

  function SkewAt(age: int, len: nat, extra: nat, s: nat): nat {
    (if age < s then 1 else 0) + (if s < age <= s + extra || age + len <= s + extra then 1 else 0)
  }

  /** s + 1 modulo len */
  function Around(s: nat, len: nat): nat { if s + 1 < len then s + 1 else 0 }

  lemma DialKeepsSkew(p: Pool, base: nat, extra: nat, s: nat)
    requires Skewed(p, base, extra, s) && p.waiting > 0 && p.next < TWO_64 && Aligned(p.next, |p.n|)
    ensures Skewed(After(p, Dial), base + (if s + 1 < |p.n| then 0 else 1), extra, Around(s, |p.n|))
  {
    var len, p' := |p.n|, After(p, Dial);
    forall i | 0 <= i < len
      ensures
        var age, age' := Age(p.next, i, len), Age(p'.next, i, len);
        && 0 <= age < len && age' == (if age == len - 1 then 0 else age + 1)
        && p'.n[i] == p.n[i] + (if age' == 0 then 1 else 0)
    {
      AgeWithin(p.next, i, len);
      AgeAfterDial(p.next, i, len);
    }
  }

  /** s, counted on by dials modulo len. */
  function CountedOn(s: nat, dials: nat, len: nat): nat
    requires s < len
    decreases dials
  {
    if dials == 0 then s else CountedOn(Around(s, len), dials - 1, len)
  }

  lemma {:induction false} CountedOnIs(s: nat, dials: nat, len: nat)
    requires s < len
    ensures CountedOn(s, dials, len) == (s + dials) % len
    decreases dials
  {
    if dials == 0 {
      DivIs(s, 0, s, len);
    } else if s + 1 < len {
      CountedOnIs(s + 1, dials - 1, len);
    } else {
      CountedOnIs(0, dials - 1, len);
      OneTurnMore(dials - 1, len);
    }
  }

  lemma {:induction false} DialAllKeepsSkew(p: Pool, base: nat, extra: nat, s: nat) returns (base': nat)
    requires Skewed(p, base, extra, s) && Room(p, p.waiting)
    ensures |DialAll(p).n| == |p.n| && Skewed(DialAll(p), base', extra, CountedOn(s, p.waiting, |p.n|))
    decreases p.waiting
  {
    DialAllKeepsTotal(p);
    base' := base;
    if p.waiting > 0 {
      DialKeepsSkew(p, base, extra, s);
      RoomAfterDial(p, p.waiting - 1);
      var dialed, around := After(p, Dial), Around(s, |p.n|);
      assert |dialed.n| == |p.n| && dialed.waiting == p.waiting - 1;
      base' := DialAllKeepsSkew(dialed, base + (if s + 1 < |p.n| then 0 else 1), extra, around);
    }
  }

  lemma OneTurnMore(a: nat, len: nat)
    requires len > 0
    ensures (a + len) % len == a % len
  {
    assert a + len == (a / len + 1) * len + a % len;
    ModIs(a + len, a / len + 1, a % len, len);
  }

  lemma WithAge(next: nat, age: nat, len: nat) returns (i: nat)
    requires age < len
    ensures i < len && Age(next, i, len) == age
  {
    i := (next - 1 - age) % len;
    ModIs(next - 1 - i, (next - 1 - age) / len, age, len);
  }

  lemma SkewedIsEvenExactly(p: Pool, base: nat, extra: nat, s: nat)
    requires Skewed(p, base, extra, s)
    ensures Even(p.n) <==> extra == 0 || s + extra < |p.n|
  {
    forall i | 0 <= i < |p.n| ensures 0 <= Age(p.next, i, |p.n|) { AgeWithin(p.next, i, |p.n|); }
    if extra > 0 && s + extra >= |p.n| {
      var most := WithAge(p.next, 0, |p.n|);
      var least := WithAge(p.next, s, |p.n|);
      assert p.n[most] == base + 2 && p.n[least] == base;
    }
  }

  lemma FailureSkews(p: Pool, base: nat, extra: nat)
    requires Level(p, base, extra) && p.waiting > 0 && p.next < TWO_64 && Aligned(p.next, |p.n|)
    ensures Skewed(After(p, DialFails), base, extra, 0)
  {
    var len, failed := |p.n|, After(p, DialFails);
    forall i | 0 <= i < len
      ensures
        var age, age' := Age(p.next, i, len), Age(failed.next, i, len);
        && 0 <= age < len && age' == (if age == len - 1 then 0 else age + 1)
    {
      AgeWithin(p.next, i, len);
      AgeAfterDial(p.next, i, len);
    }
  }

  /** One failure exactly. From level counts a dial fails, then all who wait dial, w of them: the counts come out even
      if and only if they were equal, or the dials of the last turn stop short of the fuller addresses. */
  lemma FailureKeepsEvenExactly(p: Pool, base: nat, extra: nat)
    requires Level(p, base, extra) && p.waiting > 0 && Room(p, p.waiting + 1)
    ensures
      Even(DialAll(After(p, DialFails)).n) <==> extra == 0 || p.waiting % |p.n| + extra < |p.n|
  {
    FailureSkews(p, base, extra);
    var base' := DialAllKeepsSkew(After(p, DialFails), base, extra, 0);
    CountedOnIs(0, p.waiting, |p.n|);
    SkewedIsEvenExactly(DialAll(After(p, DialFails)), base', extra, CountedOn(0, p.waiting, |p.n|));
  }
}
