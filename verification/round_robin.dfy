/** Two-level round robin: a request first picks a group, then a client of that group, each by bumping a
    64-bit counter. Callers run concurrently, so between the two bumps of one caller any
    other caller may do any number of bumps. */
module RoundRobin {
  import opened Balance

  /** atomic.AddUint64(&counter, 1) */
  function Bump(counter: nat): nat { (counter + 1) % TWO_64 }

  /** One group: its counter, the callers that picked it and have not picked a client yet, how many have, and
      how many requests each client got. */
  datatype Group = Group(counter: nat, held: nat, done: nat, served: seq<nat>)

  /** calls is the number of group picks so far. */
  datatype State = State(counter: nat, calls: nat, groups: seq<Group>)

  datatype Step = PickGroup | PickClient(j: nat)

  function Init(groups: nat, clients: nat): State {
    State(0, 0, seq(groups, _ => Group(0, 0, 0, seq(clients, _ => 0))))
  }

  predicate Enabled(s: State, step: Step) {
    match step
    case PickGroup => s.groups != []
    case PickClient(j) => j < |s.groups| && s.groups[j].held > 0 && s.groups[j].served != []
  }

  function Serve(g: Group): Group
    requires g.held > 0 && g.served != []
  {
    var k := Bump(g.counter) % |g.served|;
    Group(Bump(g.counter), g.held - 1, g.done + 1, g.served[k := g.served[k] + 1])
  }

  function Apply(s: State, step: Step): State
    requires Enabled(s, step)
  {
    match step
    case PickGroup =>
      var j := Bump(s.counter) % |s.groups|;
      State(Bump(s.counter), s.calls + 1, s.groups[j := s.groups[j].(held := s.groups[j].held + 1)])
    case PickClient(j) => s.(groups := s.groups[j := Serve(s.groups[j])])
  }

  predicate IsRun(s: State, steps: seq<Step>)
    decreases |steps|
  {
    steps == [] || (Enabled(s, steps[0]) && IsRun(Apply(s, steps[0]), steps[1..]))
  }

  function Run(s: State, steps: seq<Step>): State
    requires IsRun(s, steps)
    decreases |steps|
  {
    if steps == [] then s else Run(Apply(s, steps[0]), steps[1..])
  }

  /** How many of the first n bumps of a fresh counter select index i of len. */
  function Share(n: nat, len: nat, i: nat): nat
    requires len > 0
  {
    if n == 0 then 0 else Share(n - 1, len, i) + (if n % TWO_64 % len == i then 1 else 0)
  }

  ghost predicate GroupSound(g: Group, calls: nat, groups: nat, clients: nat, j: nat)
    requires groups > 0 && clients > 0
  {
    && g.counter == g.done % TWO_64
    && g.held + g.done == Share(calls, groups, j)
    && |g.served| == clients && Sum(g.served) == g.done
    && forall k :: 0 <= k < clients ==> g.served[k] == Share(g.done, clients, k)
  }

  /** Whatever the interleaving, what a group was given depends on the number of calls alone, and what a
      client served on what its group was given. */
  ghost predicate Sound(s: State, groups: nat, clients: nat)
    requires groups > 0 && clients > 0
  {
    && |s.groups| == groups
    && s.counter == s.calls % TWO_64
    && forall j :: 0 <= j < groups ==> GroupSound(s.groups[j], s.calls, groups, clients, j)
  }

  lemma BumpIs(n: nat)
    ensures Bump(n % TWO_64) == (n + 1) % TWO_64
  {
  }

  lemma ServeKeepsSound(g: Group, calls: nat, groups: nat, clients: nat, j: nat)
    requires groups > 0 && clients > 0 && GroupSound(g, calls, groups, clients, j) && g.held > 0
    ensures GroupSound(Serve(g), calls, groups, clients, j)
  {
    BumpIs(g.done);
    var k := Bump(g.counter) % clients;
    SumUpdate(g.served, k, g.served[k] + 1);
  }

  lemma StepKeepsSound(s: State, step: Step, groups: nat, clients: nat)
    requires groups > 0 && clients > 0 && Sound(s, groups, clients) && Enabled(s, step)
    ensures Sound(Apply(s, step), groups, clients)
  {
    var s' := Apply(s, step);
    BumpIs(s.calls);
    forall j | 0 <= j < groups ensures GroupSound(s'.groups[j], s'.calls, groups, clients, j) {
      assert GroupSound(s.groups[j], s.calls, groups, clients, j);
      if step == PickClient(j) {
        ServeKeepsSound(s.groups[j], s.calls, groups, clients, j);
      }
    }
  }

  lemma {:induction false} RunKeepsSound(s: State, steps: seq<Step>, groups: nat, clients: nat)
    requires groups > 0 && clients > 0 && Sound(s, groups, clients) && IsRun(s, steps)
    ensures Sound(Run(s, steps), groups, clients)
    decreases |steps|
  {
    if steps != [] {
      StepKeepsSound(s, steps[0], groups, clients);
      RunKeepsSound(Apply(s, steps[0]), steps[1..], groups, clients);
    }
  }

  // ---- The code ----

  /** One group of clients to one address. held, done and served follow who picked it and was served; the code has
      the counter only. */
  class ClientsGroup {
    const addr: string
    const clients: nat
    var roundRobin: nat
    ghost var held: nat
    ghost var done: nat
    ghost var served: seq<nat>

    ghost function View(): Group
      reads this
    {
      Group(roundRobin, held, done, served)
    }

    constructor (addr: string, clients: nat)
      ensures this.addr == addr && this.clients == clients
      ensures View() == Group(0, 0, 0, seq(clients, _ => 0))
    {
      this.addr, this.clients, roundRobin := addr, clients, 0;
      held, done, served := 0, 0, seq(clients, _ => 0);
    }

    /** getClient, for a caller that picked this group: the step PickClient of the group. */
    method GetClient() returns (idx: nat)
      requires clients > 0 && |served| == clients
      modifies this
      ensures idx < clients && |served| == clients
      ensures old(held) > 0 ==> View() == Serve(old(View())) && served[idx] == old(served)[idx] + 1
    {
      var n := (roundRobin + 1) % TWO_64;
      roundRobin := n;
      idx := n % clients;
      if held > 0 {
        held, done, served := held - 1, done + 1, served[idx := served[idx] + 1];
      }
    }
  }

  class ShardedClient {
    const groups: seq<ClientsGroup>
    var roundRobin: nat
    ghost var calls: nat

    ghost predicate Valid()
      reads this, set g | g in groups
    {
      && groups != [] && (forall i, j :: 0 <= i < j < |groups| ==> groups[i] != groups[j])
      && forall g :: g in groups ==> g.clients > 0 && |g.served| == g.clients
    }

    ghost function View(): State
      reads this, set g | g in groups
    {
      State(roundRobin, calls,
            seq(|groups|, i requires 0 <= i < |groups| reads this, set g | g in groups => groups[i].View()))
    }

    constructor (groups: seq<ClientsGroup>)
      ensures this.groups == groups && roundRobin == 0 && calls == 0
    {
      this.groups, roundRobin, calls := groups, 0, 0;
    }

    /** getGroup: the step PickGroup. */
    method GetGroup() returns (idx: nat)
      requires Valid()
      modifies this, set g | g in groups
      ensures Valid() && idx < |groups| && groups[idx].held > 0
      ensures View() == Apply(old(View()), PickGroup)
    {
      var n := (roundRobin + 1) % TWO_64;
      roundRobin := n;
      idx := n % |groups|;
      calls := calls + 1;
      groups[idx].held := groups[idx].held + 1;
      forall i | 0 <= i < |groups| && i != idx ensures groups[i].View() == old(groups[i].View()) {}
    }

    /** What every request does first: getGroup().getClient(). Alone, it is the two steps one after the other. */
    method Pick() returns (j: nat, k: nat)
      requires Valid()
      modifies this, set g | g in groups
      ensures Valid() && j < |groups| && k < groups[j].clients
      ensures
        var picked := Apply(old(View()), PickGroup);
        Enabled(picked, PickClient(j)) && View() == Apply(picked, PickClient(j))
    {
      j := GetGroup();
      ghost var before := groups[j].View();
      label picked:
      k := groups[j].GetClient();
      forall i | 0 <= i < |groups| && i != j ensures groups[i].View() == old@picked(groups[i].View()) {}
      assert groups[j].View() == Serve(before);
    }
  }

  /** A client nobody has used is in the state that the runs below start from. */
  lemma NothingServed(sc: ShardedClient, clients: nat)
    requires clients > 0 && sc.groups != [] && sc.roundRobin == 0 && sc.calls == 0
    requires forall i, j :: 0 <= i < j < |sc.groups| ==> sc.groups[i] != sc.groups[j]
    requires forall i :: 0 <= i < |sc.groups| ==>
      sc.groups[i].clients == clients && sc.groups[i].View() == Group(0, 0, 0, seq(clients, _ => 0))
    ensures sc.Valid() && sc.View() == Init(|sc.groups|, clients)
  {
    var view, init := sc.View(), Init(|sc.groups|, clients);
    forall i | 0 <= i < |sc.groups| ensures view.groups[i] == init.groups[i] {
      assert sc.groups[i].View() == Group(0, 0, 0, seq(clients, _ => 0));
    }
    assert view.groups == init.groups;
  }

  // ---- Fairness ----

  /** The counter has not wrapped in n bumps, or wraps harmlessly. */
  predicate NoSkip(n: nat, len: nat)
    requires len > 0
  {
    n < TWO_64 || TWO_64 % len == 0
  }

  lemma WrapIsHarmless(n: nat, len: nat)
    requires len > 0 && NoSkip(n, len)
    ensures n % TWO_64 % len == n % len
  {
    if n >= TWO_64 {
      var turns := TWO_64 / len;
      var q, r := n / TWO_64, n % TWO_64;
      assert TWO_64 == turns * len;
      assert n == (q * turns + r / len) * len + r % len;
      ModIs(n, q * turns + r / len, r % len, len);
    }
  }

  lemma NextQuotient(n: nat, len: nat)
    requires n > 0 && len > 0
    ensures
      var q, r := (n - 1) / len, (n - 1) % len;
      if r == len - 1 then n / len == q + 1 && n % len == 0 else n / len == q && n % len == r + 1
  {
    var q, r := (n - 1) / len, (n - 1) % len;
    if r == len - 1 {
      DivIs(n, q + 1, 0, len);
    } else {
      DivIs(n, q, r + 1, len);
    }
  }

  /** Every index gets the whole rounds, and the first ones after index 0 one more. */
  lemma {:induction false} ShareIs(n: nat, len: nat, i: nat)
    requires i < len && NoSkip(n, len)
    ensures Share(n, len, i) == n / len + (if 1 <= i <= n % len then 1 else 0)
    decreases n
  {
    if n == 0 {
      DivIs(0, 0, 0, len);
    } else {
      ShareIs(n - 1, len, i);
      WrapIsHarmless(n, len);
      NextQuotient(n, len);
    }
  }

  lemma {:induction false} ShareAtMost(n: nat, len: nat, i: nat)
    requires len > 0
    ensures Share(n, len, i) <= n
    decreases n
  {
    if n > 0 {
      ShareAtMost(n - 1, len, i);
    }
  }

  /** ceil(n / len) */
  function Ceil(n: nat, len: nat): nat
    requires len > 0
  {
    (n + len - 1) / len
  }

  lemma CeilIs(n: nat, len: nat)
    requires len > 0
    ensures Ceil(n, len) == n / len + (if n % len == 0 then 0 else 1)
  {
    var q, r := n / len, n % len;
    if r == 0 {
      DivIs(n + len - 1, q, len - 1, len);
    } else {
      assert (q + 1) * len == q * len + len;
      DivIs(n + len - 1, q + 1, r - 1, len);
    }
  }

  lemma ShareBetween(n: nat, len: nat, i: nat)
    requires i < len && NoSkip(n, len)
    ensures n / len <= Share(n, len, i) <= Ceil(n, len)
  {
    ShareIs(n, len, i);
    CeilIs(n, len);
  }

  lemma CeilMono(a: nat, b: nat, len: nat)
    requires len > 0 && a <= b
    ensures a / len <= b / len && Ceil(a, len) <= Ceil(b, len)
  {
    DivAtLeast(b, a / len, len);
    DivAtLeast(b + len - 1, Ceil(a, len), len);
  }

  lemma CeilCovers(n: nat, len: nat)
    requires len > 0
    ensures n <= Ceil(n, len) * len
  {
    CeilIs(n, len);
    var q := n / len;
    assert n == q * len + n % len && (q + 1) * len == q * len + len;
  }

  lemma CeilBelow(n: nat, m: nat, len: nat)
    requires len > 0 && n <= m * len
    ensures Ceil(n, len) <= m
  {
    CeilMono(n, m * len, len);
    DivIs(m * len + len - 1, m, len - 1, len);
  }

  /** q + 1 shared out rounding up exceeds q - h shared out rounding down by at most 1 + ceil(h / len). */
  lemma CeilGap(q: nat, h: nat, len: nat)
    requires len > 0 && h <= q
    ensures Ceil(q + 1, len) <= (q - h) / len + 1 + Ceil(h, len)
  {
    var low, up := (q - h) / len, Ceil(h, len);
    CeilCovers(h, len);
    assert q - h < low * len + len;
    MulSum(low, up, 1, len);
    CeilBelow(q + 1, low + up + 1, len);
  }

  lemma MulSum(a: nat, b: nat, c: nat, len: nat)
    ensures (a + b + c) * len == a * len + b * len + c * len
  {
  }

  /** For every interleaving: a client is ahead of another by at most one request, plus the turns that
      callers holding the other's group have not taken yet. */
  lemma FairAtEveryPoint(groups: nat, clients: nat, steps: seq<Step>, j: nat, k: nat, j': nat, k': nat)
    requires groups > 0 && clients > 0 && IsRun(Init(groups, clients), steps)
    requires j < groups && j' < groups && k < clients && k' < clients
    requires var calls := Run(Init(groups, clients), steps).calls; NoSkip(calls, groups) && NoSkip(calls, clients)
    ensures
      var s := Run(Init(groups, clients), steps);
      && |s.groups| == groups && |s.groups[j].served| == |s.groups[j'].served| == clients
      && s.groups[j].served[k] <= s.groups[j'].served[k'] + 1 + Ceil(s.groups[j'].held, clients)
  {
    var s := Run(Init(groups, clients), steps);
    InitSound(groups, clients);
    RunKeepsSound(Init(groups, clients), steps, groups, clients);
    var g, g' := s.groups[j], s.groups[j'];
    assert GroupSound(g, s.calls, groups, clients, j) && GroupSound(g', s.calls, groups, clients, j');
    ShareIs(s.calls, groups, j);
    ShareIs(s.calls, groups, j');
    ShareAtMost(s.calls, groups, j);
    ShareAtMost(s.calls, groups, j');
    ShareGap(g.done, g'.done, s.calls / groups, g'.held, clients, k, k');
  }

  lemma ShareGap(a: nat, b: nat, q: nat, h: nat, len: nat, k: nat, k': nat)
    requires k < len && k' < len && NoSkip(a, len) && NoSkip(b, len)
    requires a <= q + 1 && q <= b + h
    ensures Share(a, len, k) <= Share(b, len, k') + 1 + Ceil(h, len)
  {
    ShareBetween(a, len, k);
    ShareBetween(b, len, k');
    CeilMono(a, q + 1, len);
    if h <= q {
      CeilMono(q - h, b, len);
      CeilGap(q, h, len);
    } else {
      CeilMono(q + 1, h, len);
    }
  }

  lemma InitSound(groups: nat, clients: nat)
    requires groups > 0 && clients > 0
    ensures Sound(Init(groups, clients), groups, clients)
  {
    SumConstant(Init(groups, clients).groups[0].served, 0);
  }

  predicate Quiet(s: State) {
    forall j :: 0 <= j < |s.groups| ==> s.groups[j].held == 0
  }

  /** No client has had two requests more than another. */
  predicate Fair(s: State) {
    forall j, k, j', k' ::
      (&& 0 <= j < |s.groups| && 0 <= k < |s.groups[j].served|
       && 0 <= j' < |s.groups| && 0 <= k' < |s.groups[j'].served|) ==>
        s.groups[j].served[k] <= s.groups[j'].served[k'] + 1
  }

  /** Whenever no caller is between its two bumps, the load is level: before the counters wrap, and
      for ever when both lengths divide 2^64. */
  lemma FairWhenQuiet(groups: nat, clients: nat, steps: seq<Step>)
    requires groups > 0 && clients > 0 && IsRun(Init(groups, clients), steps)
    requires var calls := Run(Init(groups, clients), steps).calls; NoSkip(calls, groups) && NoSkip(calls, clients)
    requires Quiet(Run(Init(groups, clients), steps))
    ensures Fair(Run(Init(groups, clients), steps))
  {
    var s := Run(Init(groups, clients), steps);
    InitSound(groups, clients);
    RunKeepsSound(Init(groups, clients), steps, groups, clients);
    forall j, k, j', k' | 0 <= j < |s.groups| && 0 <= k < |s.groups[j].served|
                          && 0 <= j' < |s.groups| && 0 <= k' < |s.groups[j'].served|
      ensures s.groups[j].served[k] <= s.groups[j'].served[k'] + 1
    {
      assert GroupSound(s.groups[j], s.calls, groups, clients, j);
      assert GroupSound(s.groups[j'], s.calls, groups, clients, j');
      FairAtEveryPoint(groups, clients, steps, j, k, j', k');
      DivIs(clients - 1, 0, clients - 1, clients);
    }
  }

  // ---- Over runs of any length: fair exactly when both lengths divide 2^64 ----

  lemma {:induction false} RunConcat(s: State, steps: seq<Step>, last: Step)
    requires IsRun(s, steps) && Enabled(Run(s, steps), last)
    ensures IsRun(s, steps + [last]) && Run(s, steps + [last]) == Apply(Run(s, steps), last)
    decreases |steps|
  {
    if steps == [] {
      assert [last][1..] == [];
    } else {
      assert (steps + [last])[1..] == steps[1..] + [last];
      RunConcat(Apply(s, steps[0]), steps[1..], last);
    }
  }

  /** calls requests one after the other. */
  lemma {:induction false} OneByOne(groups: nat, clients: nat, calls: nat) returns (steps: seq<Step>)
    requires groups > 0 && clients > 0
    ensures IsRun(Init(groups, clients), steps)
    ensures var s := Run(Init(groups, clients), steps); s.calls == calls && Quiet(s) && Sound(s, groups, clients)
    decreases calls
  {
    var s := Init(groups, clients);
    InitSound(groups, clients);
    steps := [];
    if calls > 0 {
      steps := OneByOne(groups, clients, calls - 1);
      var before := Run(s, steps);
      var j := Bump(before.counter) % groups;
      StepKeepsSound(before, PickGroup, groups, clients);
      RunConcat(s, steps, PickGroup);
      steps := steps + [PickGroup];
      var between := Run(s, steps);
      assert GroupSound(between.groups[j], between.calls, groups, clients, j);
      StepKeepsSound(between, PickClient(j), groups, clients);
      RunConcat(s, steps, PickClient(j));
      steps := steps + [PickClient(j)];
    }
  }

  lemma {:induction false} ShareOfPeriods(periods: nat, len: nat, i: nat)
    requires len > 0
    ensures Share(periods * TWO_64, len, i) == periods * Share(TWO_64, len, i)
  {
    if periods > 0 {
      ShareOfPeriods(periods - 1, len, i);
      assert periods * TWO_64 == (periods - 1) * TWO_64 + TWO_64;
      ShareAfterPeriods(periods - 1, TWO_64, len, i);
      assert periods * Share(TWO_64, len, i) == (periods - 1) * Share(TWO_64, len, i) + Share(TWO_64, len, i);
    }
  }

  lemma {:induction false} ShareAfterPeriods(periods: nat, n: nat, len: nat, i: nat)
    requires len > 0
    ensures Share(periods * TWO_64 + n, len, i) == Share(periods * TWO_64, len, i) + Share(n, len, i)
    decreases n
  {
    if n > 0 {
      ShareAfterPeriods(periods, n - 1, len, i);
      ModIs(periods * TWO_64 + n, periods + n / TWO_64, n % TWO_64, TWO_64);
    }
  }

  /** When len does not divide 2^64, one turn of the counter puts index 0 one ahead of the last index. */
  lemma TurnDrifts(len: nat)
    requires len > 0 && TWO_64 % len != 0
    ensures Share(TWO_64, len, 0) == Share(TWO_64, len, len - 1) + 1
  {
    NextQuotient(TWO_64, len);
    ShareIs(TWO_64 - 1, len, 0);
    ShareIs(TWO_64 - 1, len, len - 1);
    LastOfTurn(len, 0);
    LastOfTurn(len, len - 1);
  }

  lemma LastOfTurn(len: nat, i: nat)
    requires len > 0
    ensures Share(TWO_64, len, i) == Share(TWO_64 - 1, len, i) + (if i == 0 then 1 else 0)
  {
    DivIs(0, 0, 0, len);
  }

  lemma ShareDrifts(periods: nat, len: nat)
    requires len > 0 && TWO_64 % len != 0
    ensures Share(periods * TWO_64, len, 0) == Share(periods * TWO_64, len, len - 1) + periods
  {
    ShareOfPeriods(periods, len, 0);
    ShareOfPeriods(periods, len, len - 1);
    TurnDrifts(len);
    var last := Share(TWO_64, len, len - 1);
    assert periods * (last + 1) == periods * last + periods;
  }

  lemma UnfairClients(groups: nat, clients: nat) returns (steps: seq<Step>)
    requires groups > 0 && clients > 0 && TWO_64 % groups == 0 && TWO_64 % clients != 0
    ensures IsRun(Init(groups, clients), steps)
    ensures Quiet(Run(Init(groups, clients), steps)) && !Fair(Run(Init(groups, clients), steps))
  {
    var calls := groups * (2 * TWO_64);
    steps := OneByOne(groups, clients, calls);
    var s := Run(Init(groups, clients), steps);
    var g := s.groups[0];
    assert GroupSound(g, calls, groups, clients, 0);
    assert g.done == 2 * TWO_64 by {
      ShareIs(calls, groups, 0);
      DivIs(calls, 2 * TWO_64, 0, groups);
    }
    ShareDrifts(2, clients);
    assert g.served[0] == g.served[clients - 1] + 2;
  }

  lemma {:induction false} SumAtMostEach(n: seq<nat>, high: nat)
    requires forall i :: 0 <= i < |n| ==> n[i] <= high
    ensures Sum(n) <= high * |n|
  {
    if n != [] {
      SumAtMostEach(n[1..], high);
      assert high * |n| == high + high * |n[1..]|;
    }
  }

  lemma FairTotalsAreClose(first: seq<nat>, last: seq<nat>)
    requires |first| == |last| && last != []
    requires forall k :: 0 <= k < |last| ==> first[k] <= last[0] + 1 && last[0] <= last[k] + 1
    ensures Sum(first) <= Sum(last) + 2 * |last|
  {
    var b: nat := last[0];
    var low: nat := if b == 0 then 0 else b - 1;
    SumAtMostEach(first, b + 1);
    SumAtLeast(last, low);
    MulMono(b + 1, low + 2, |last|);
    assert (low + 2) * |last| == low * |last| + 2 * |last|;
  }

  lemma UnfairGroups(groups: nat, clients: nat) returns (steps: seq<Step>)
    requires groups > 0 && clients > 0 && TWO_64 % groups != 0
    ensures IsRun(Init(groups, clients), steps)
    ensures Quiet(Run(Init(groups, clients), steps)) && !Fair(Run(Init(groups, clients), steps))
  {
    var periods := 2 * clients + 1;
    steps := OneByOne(groups, clients, periods * TWO_64);
    var s := Run(Init(groups, clients), steps);
    var first, last := s.groups[0], s.groups[groups - 1];
    assert GroupSound(first, s.calls, groups, clients, 0) && GroupSound(last, s.calls, groups, clients, groups - 1);
    ShareDrifts(periods, groups);
    assert Sum(first.served) == Sum(last.served) + periods;
    if forall k :: 0 <= k < clients ==> first.served[k] <= last.served[0] + 1 && last.served[0] <= last.served[k] + 1 {
      FairTotalsAreClose(first.served, last.served);
    }
  }

  ghost predicate AlwaysFair(groups: nat, clients: nat) {
    forall steps :: IsRun(Init(groups, clients), steps) && Quiet(Run(Init(groups, clients), steps)) ==>
      Fair(Run(Init(groups, clients), steps))
  }

  /** Fair for ever exactly when the numbers of groups and of clients divide 2^64, as one group of the default 128
      does. */
  lemma AlwaysFairExactly(groups: nat, clients: nat)
    requires groups > 0 && clients > 0
    ensures AlwaysFair(groups, clients) <==>
      0x1_0000_0000_0000_0000 % groups == 0 && 0x1_0000_0000_0000_0000 % clients == 0
  {
    if TWO_64 % groups != 0 {
      var steps := UnfairGroups(groups, clients);
    } else if TWO_64 % clients != 0 {
      var steps := UnfairClients(groups, clients);
    } else {
      forall steps | IsRun(Init(groups, clients), steps) && Quiet(Run(Init(groups, clients), steps))
        ensures Fair(Run(Init(groups, clients), steps))
      {
        FairWhenQuiet(groups, clients, steps);
      }
    }
  }
}
