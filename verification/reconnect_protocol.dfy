/** How an Update of the certificate followed by a Reconnect moves every open
    connection onto the new certificate, and which connections a Reconnect closes.

    Every clause of code that runs between two shared-memory accesses is one Step, so a run
    is any interleaving of dials, handshakes, closes, address refreshes, updates and
    Reconnect calls. fastrpc enters through two facts only: a client dials again only
    after it has closed the connection it served on, and the TLS handshake follows
    the return of the Dial hook. */
module ReconnectProtocol {
  import opened Wrappers

  import Balance

  /** sync.Once around trackedConn.Close: not called, called, removed from the
      registry, underlying connection closed. */
  datatype Once = Unused | Entered | Removed | Finished

  /** How far a connection has come: dialed, in the registry, in the client's
      slot, handshaken with the certificate that was the cert-th stored. */
  datatype Stage = Dialed | Registered | Stored | Shaken(cert: nat)

  datatype Conn = Conn(owner: nat, addr: string, stage: Stage, once: Once, closes: nat) {
    predicate Open() { once != Finished }

    predicate InSlotStage() { stage.Stored? || stage.Shaken? }
  }

  /** What fastrpc is doing for one client. */
  datatype Phase = Resting | Picked(addrs: seq<string>) | Connecting(addr: string) | Serving(conn: nat)

  /** Where a goroutine of a Reconnect stands in client.reconnect. */
  datatype Point = ToLoad | Loaded(conn: nat) | Closing(conn: nat) | Closed(conn: nat) | Done {
    predicate HasConn() { Loaded? || Closing? || Closed? }

    predicate Holds(x: nat) { HasConn() && conn == x }
  }

  /** A Reconnect starts one goroutine per client. */
  datatype Job = Job(client: nat, at: Point)

  /** The dialer of a group: its addresses, all it ever had, and its round-robin pointer. */
  datatype Rotation = Rotation(addrs: seq<string>, listed: set<string>, next: nat)

  /** groupOf says which group, and so which dialer, a client belongs to. registered has the maps of all the
      dialers in one, since a connection is only ever in the map of its own. */
  datatype State = State(
    dialers: seq<Rotation>,
    groupOf: seq<nat>,
    registered: map<nat, string>,
    conns: seq<Conn>,
    phases: seq<Phase>,
    slots: seq<Option<nat>>,
    current: nat,
    jobs: seq<Job>)

  datatype Step =
    | PickAddrs(c: nat)
    | TakeIndex(c: nat)
    | DialSucceeds(c: nat)
    | DialFails(c: nat)
    | Register(x: nat)
    | StoreSlot(x: nat)
    | Handshake(x: nat)
    | HangUp(c: nat)
    | CloseEnter(x: nat)
    | CloseRemove(x: nat)
    | CloseFinish(x: nat)
    | Refresh(g: nat, list: seq<string>)
    | Update
    | Begin
    | Load(j: nat)
    | JobClose(j: nat)
    | JobCloseReturns(j: nat)
    | JobSwap(j: nat)

  predicate Distinct(list: seq<string>) {
    forall i, j :: 0 <= i < j < |list| ==> list[i] != list[j]
  }

  function NewRotation(addrs: seq<string>): Rotation { Rotation(addrs, set a | a in addrs, 0) }

  function Init(lists: seq<seq<string>>, groupOf: seq<nat>): State {
    State(seq(|lists|, g requires 0 <= g < |lists| => NewRotation(lists[g])), groupOf, map[], [],
          seq(|groupOf|, _ => Resting), seq(|groupOf|, _ => None), 0, [])
  }

  /** What newClient sets up: every client in a group, every group with addresses, each once. */
  predicate WellFormed(lists: seq<seq<string>>, groupOf: seq<nat>) {
    && (forall g :: 0 <= g < |lists| ==> lists[g] != [] && Distinct(lists[g]))
    && (forall c :: 0 <= c < |groupOf| ==> groupOf[c] < |lists|)
  }

  predicate Grouped(s: State, c: nat) { c < |s.groupOf| && s.groupOf[c] < |s.dialers| }

  predicate Enabled(s: State, step: Step) {
    match step
    case PickAddrs(c) => c < |s.phases| && s.phases[c].Resting? && Grouped(s, c)
    case TakeIndex(c) => c < |s.phases| && s.phases[c].Picked? && Grouped(s, c)
    case DialSucceeds(c) => c < |s.phases| && s.phases[c].Connecting?
    case DialFails(c) => c < |s.phases| && s.phases[c].Connecting?
    case Register(x) => x < |s.conns| && s.conns[x].stage.Dialed?
    case StoreSlot(x) => x < |s.conns| && s.conns[x].stage.Registered? && s.conns[x].owner < |s.slots|
    case Handshake(x) => x < |s.conns| && s.conns[x].stage.Stored? && s.conns[x].Open()
    case HangUp(c) =>
      && c < |s.phases| && s.phases[c].Serving?
      && s.phases[c].conn < |s.conns| && s.conns[s.phases[c].conn].InSlotStage()
      && !s.conns[s.phases[c].conn].Open()
    case CloseEnter(x) => x < |s.conns| && !s.conns[x].stage.Dialed? && s.conns[x].once.Unused?
    case CloseRemove(x) => x < |s.conns| && s.conns[x].once.Entered?
    case CloseFinish(x) => x < |s.conns| && s.conns[x].once.Removed?
    case Refresh(g, list) => g < |s.dialers| && list != [] && Distinct(list)
    case Update => true
    case Begin => true
    case Load(j) => j < |s.jobs| && s.jobs[j].at.ToLoad? && s.jobs[j].client < |s.slots|
    case JobClose(j) => j < |s.jobs| && s.jobs[j].at.Loaded? && s.jobs[j].at.conn < |s.conns|
    case JobCloseReturns(j) =>
      && j < |s.jobs| && s.jobs[j].at.Closing?
      && s.jobs[j].at.conn < |s.conns| && !s.conns[s.jobs[j].at.conn].Open()
    case JobSwap(j) => j < |s.jobs| && s.jobs[j].at.Closed? && s.jobs[j].client < |s.slots|
  }

  function SetJob(s: State, j: nat, at: Point): State
    requires j < |s.jobs|
  {
    s.(jobs := s.jobs[j := s.jobs[j].(at := at)])
  }

  function SetConn(s: State, x: nat, conn: Conn): State
    requires x < |s.conns|
  {
    s.(conns := s.conns[x := conn])
  }

  function Apply(s: State, step: Step): State
    requires Enabled(s, step)
  {
    match step
    case PickAddrs(c) => s.(phases := s.phases[c := Picked(s.dialers[s.groupOf[c]].addrs)])
    case TakeIndex(c) =>
      var list, g := s.phases[c].addrs, s.groupOf[c];
      var d := s.dialers[g];
      if list == [] then s
      else s.(dialers := s.dialers[g := d.(next := (d.next + 1) % Balance.TWO_64)],
              phases := s.phases[c := Connecting(list[d.next % |list|])])
    case DialSucceeds(c) =>
      s.(conns := s.conns + [Conn(c, s.phases[c].addr, Dialed, Unused, 0)],
         phases := s.phases[c := Serving(|s.conns|)])
    case DialFails(c) => s.(phases := s.phases[c := Resting])
    case Register(x) =>
      SetConn(s, x, s.conns[x].(stage := Registered)).(registered := s.registered[x := s.conns[x].addr])
    case StoreSlot(x) =>
      SetConn(s, x, s.conns[x].(stage := Stored)).(slots := s.slots[s.conns[x].owner := Some(x)])
    case Handshake(x) => SetConn(s, x, s.conns[x].(stage := Shaken(s.current)))
    case HangUp(c) => s.(phases := s.phases[c := Resting])
    case CloseEnter(x) => SetConn(s, x, s.conns[x].(once := Entered))
    case CloseRemove(x) => SetConn(s, x, s.conns[x].(once := Removed)).(registered := s.registered - {x})
    case CloseFinish(x) => SetConn(s, x, s.conns[x].(once := Finished, closes := s.conns[x].closes + 1))
    case Refresh(g, list) =>
      s.(dialers := s.dialers[g := s.dialers[g].(addrs := list, listed := s.dialers[g].listed + set a | a in list)])
    case Update => s.(current := s.current + 1)
    case Begin => s.(jobs := s.jobs + seq(|s.slots|, (c: nat) => Job(c, ToLoad)))
    case Load(j) =>
      SetJob(s, j, match s.slots[s.jobs[j].client] case None => Done case Some(x) => Loaded(x))
    case JobClose(j) =>
      var x := s.jobs[j].at.conn;
      var s' := SetJob(s, j, Closing(x));
      if s.conns[x].once.Unused? then SetConn(s', x, s.conns[x].(once := Entered)) else s'
    case JobCloseReturns(j) => SetJob(s, j, Closed(s.jobs[j].at.conn))
    case JobSwap(j) =>
      var c, x := s.jobs[j].client, s.jobs[j].at.conn;
      var s' := SetJob(s, j, Done);
      if s.slots[c] == Some(x) then s'.(slots := s.slots[c := None]) else s'
  }

  predicate IsRun(s: State, steps: seq<Step>)
    decreases |steps|
  {
    steps == [] || (Enabled(s, steps[0]) && IsRun(Apply(s, steps[0]), steps[1..]))
  }

  function Run(s: State, steps: seq<Step>): State
    requires IsRun(s, steps)
    decreases |steps|
  {
    if steps == [] then s else Run(Apply(s, steps[0]), steps[1..])
  }

  // ---- Which address is dialed ----

  /** A client dials the address that the pointer of its group stands at, in the list as it was when the client read
      it, and the pointer moves on. */
  lemma DialsWhereThePointerStands(s: State, c: nat)
    requires Enabled(s, TakeIndex(c)) && s.phases[c].addrs != []
    ensures
      var list, g := s.phases[c].addrs, s.groupOf[c];
      var taken := Apply(s, TakeIndex(c));
      && Enabled(taken, DialSucceeds(c))
      && var s' := Apply(taken, DialSucceeds(c));
         && s'.conns == s.conns + [Conn(c, list[s.dialers[g].next % |list|], Dialed, Unused, 0)]
         && s'.phases[c] == Serving(|s.conns|)
         && s'.dialers[g].next == (s.dialers[g].next + 1) % 0x1_0000_0000_0000_0000
  {
  }

  /** After a refresh of its group a client dials into the new list, and another group's dialer is as it was. */
  lemma DialsIntoTheNewList(s: State, g: nat, list: seq<string>, c: nat)
    requires Enabled(s, Refresh(g, list)) && Enabled(s, PickAddrs(c))
    ensures
      var s' := Apply(Apply(s, Refresh(g, list)), PickAddrs(c));
      && Enabled(s', TakeIndex(c))
      && s'.phases[c].addrs == (if s.groupOf[c] == g then list else s.dialers[s.groupOf[c]].addrs)
      && s'.dialers[s.groupOf[c]].next == s.dialers[s.groupOf[c]].next
  {
  }

  // ---- What every step keeps ----

  ghost predicate Shape(s: State) {
    && |s.phases| == |s.slots| == |s.groupOf|
    && (forall c :: 0 <= c < |s.groupOf| ==> s.groupOf[c] < |s.dialers|)
    && (forall x :: 0 <= x < |s.conns| ==> s.conns[x].owner < |s.slots|)
    && (forall j :: 0 <= j < |s.jobs| ==> s.jobs[j].client < |s.slots|)
  }

  /** fastrpc serves one connection per client: an open connection, and one that is not
      in the slot yet, is the one its client is busy with. */
  ghost predicate OneOpen(s: State)
    requires Shape(s)
  {
    forall x :: 0 <= x < |s.conns| && (s.conns[x].Open() || !s.conns[x].InSlotStage()) ==>
      s.phases[s.conns[x].owner] == Serving(x)
  }

  /** The slot names a stored connection of its own client. */
  ghost predicate SlotsSound(s: State) {
    forall c :: 0 <= c < |s.slots| && s.slots[c].Some? ==>
      var x := s.slots[c].value;
      x < |s.conns| && s.conns[x].owner == c && s.conns[x].InSlotStage()
  }

  /** The slot points at the client's open, stored connection. */
  ghost predicate SlotsComplete(s: State)
    requires Shape(s)
  {
    forall x :: 0 <= x < |s.conns| && s.conns[x].InSlotStage() && s.conns[x].Open() ==>
      s.slots[s.conns[x].owner] == Some(x)
  }

  ghost predicate JobSound(s: State, job: Job) {
    job.at.HasConn() ==>
      && job.at.conn < |s.conns|
      && s.conns[job.at.conn].owner == job.client
      && s.conns[job.at.conn].InSlotStage()
      && (job.at.Closing? ==> !s.conns[job.at.conn].once.Unused?)
      && (job.at.Closed? ==> !s.conns[job.at.conn].Open())
  }

  ghost predicate JobsSound(s: State) {
    forall j :: 0 <= j < |s.jobs| ==> JobSound(s, s.jobs[j])
  }

  ghost predicate Protocol(s: State) {
    Shape(s) && OneOpen(s) && SlotsSound(s) && SlotsComplete(s) && JobsSound(s)
  }

  /** The registry: a connection is in the map between its registration and its first
      Close, under its own address; it is closed at most once; the addresses are there and distinct. */
  ghost predicate Registry(s: State) {
    && (forall g :: 0 <= g < |s.dialers| ==> RotationSound(s.dialers[g]))
    && (forall x :: x in s.registered ==> x < |s.conns|)
    && (forall x :: 0 <= x < |s.conns| ==> ConnRegistered(s, x))
    && (forall c :: 0 <= c < |s.phases| ==> PhaseListed(s, c))
  }

  predicate RotationSound(d: Rotation) {
    d.addrs != [] && Distinct(d.addrs) && forall a :: a in d.addrs ==> a in d.listed
  }

  /** The addresses the dialer of client c ever had. */
  function Listed(s: State, c: nat): set<string> {
    if Grouped(s, c) then s.dialers[s.groupOf[c]].listed else {}
  }

  predicate ConnRegistered(s: State, x: nat)
    requires x < |s.conns|
  {
    && (x in s.registered <==> !s.conns[x].stage.Dialed? && (s.conns[x].once.Unused? || s.conns[x].once.Entered?))
    && (x in s.registered ==> s.registered[x] == s.conns[x].addr)
    && (s.conns[x].stage.Dialed? ==> s.conns[x].once.Unused?)
    && s.conns[x].closes == (if s.conns[x].Open() then 0 else 1)
    && s.conns[x].addr in Listed(s, s.conns[x].owner)
  }

  predicate PhaseListed(s: State, c: nat)
    requires c < |s.phases|
  {
    && (s.phases[c].Picked? ==> s.phases[c].addrs != [] && (forall a :: a in s.phases[c].addrs ==> a in Listed(s, c)))
    && (s.phases[c].Connecting? ==> s.phases[c].addr in Listed(s, c))
  }

  lemma StepKeepsShape(s: State, step: Step)
    requires Protocol(s) && Enabled(s, step)
    ensures Shape(Apply(s, step))
  {
    var s' := Apply(s, step);
    forall x | 0 <= x < |s'.conns| ensures s'.conns[x].owner < |s'.slots| {}
    forall j | 0 <= j < |s'.jobs| ensures s'.jobs[j].client < |s'.slots| {}
  }

  lemma StepKeepsOneOpen(s: State, step: Step)
    requires Protocol(s) && Enabled(s, step)
    ensures Shape(Apply(s, step)) && OneOpen(Apply(s, step))
  {
    StepKeepsShape(s, step);
    var s' := Apply(s, step);
    forall x | 0 <= x < |s'.conns| && (s'.conns[x].Open() || !s'.conns[x].InSlotStage())
      ensures s'.phases[s'.conns[x].owner] == Serving(x)
    {
      if x < |s.conns| {
        ConnAdvances(s, step, x);
        StillServing(s, step, x);
      }
    }
  }

  lemma StillServing(s: State, step: Step, x: nat)
    requires Shape(s) && OneOpen(s) && Enabled(s, step) && x < |s.conns|
    requires Apply(s, step).conns[x].Open() || !Apply(s, step).conns[x].InSlotStage()
    ensures s.conns[x].owner < |Apply(s, step).phases| && Apply(s, step).phases[s.conns[x].owner] == Serving(x)
  {
    ConnAdvances(s, step, x);
    assert s.phases[s.conns[x].owner] == Serving(x);
  }

  lemma StepKeepsSlotsSound(s: State, step: Step)
    requires Protocol(s) && Enabled(s, step)
    ensures SlotsSound(Apply(s, step))
  {
    var s' := Apply(s, step);
    forall c | 0 <= c < |s'.slots| && s'.slots[c].Some?
      ensures var x := s'.slots[c].value;
              x < |s'.conns| && s'.conns[x].owner == c && s'.conns[x].InSlotStage()
    {
      assert s'.slots[c] == s.slots[c] || step.StoreSlot?;
    }
  }

  lemma StepKeepsSlotsComplete(s: State, step: Step)
    requires Protocol(s) && Enabled(s, step)
    ensures Shape(Apply(s, step)) && SlotsComplete(Apply(s, step))
  {
    var s' := Apply(s, step);
    StepKeepsShape(s, step);
    forall x | 0 <= x < |s'.conns| && s'.conns[x].InSlotStage() && s'.conns[x].Open()
      ensures s'.slots[s'.conns[x].owner] == Some(x)
    {
      ConnAdvances(s, step, x);
      StillInSlot(s, step, x);
    }
  }

  lemma StillInSlot(s: State, step: Step, x: nat)
    requires Protocol(s) && Enabled(s, step) && x < |s.conns|
    requires Apply(s, step).conns[x].InSlotStage() && Apply(s, step).conns[x].Open()
    ensures s.conns[x].owner < |Apply(s, step).slots| && Apply(s, step).slots[s.conns[x].owner] == Some(x)
  {
    ConnAdvances(s, step, x);
    if step.StoreSlot? {
      assert s.phases[s.conns[x].owner] == Serving(x);
    } else if step.JobSwap? {
      assert JobSound(s, s.jobs[step.j]);
    }
  }

  /** No step takes a connection back: not its owner, not its registration, not its slot, not its Close. */
  lemma ConnAdvances(s: State, step: Step, x: nat)
    requires Enabled(s, step) && x < |s.conns|
    ensures x < |Apply(s, step).conns|
    ensures
      var old', new' := s.conns[x], Apply(s, step).conns[x];
      && new'.owner == old'.owner && new'.addr == old'.addr
      && (new'.stage.Dialed? ==> old'.stage.Dialed?) && (old'.InSlotStage() ==> new'.InSlotStage())
      && CloseLeft(new'.once) <= CloseLeft(old'.once)
  {
  }

  /** How many steps of Close are still to come. */
  function CloseLeft(once: Once): nat {
    match once case Unused => 3 case Entered => 2 case Removed => 1 case Finished => 0
  }

  lemma StepKeepsJob(s: State, step: Step, j: nat)
    requires Protocol(s) && Enabled(s, step) && j < |Apply(s, step).jobs|
    ensures JobSound(Apply(s, step), Apply(s, step).jobs[j])
  {
    if j < |s.jobs| {
      var job, job' := s.jobs[j], Apply(s, step).jobs[j];
      assert JobSound(s, job);
      if job' == job {
        SoundJobStays(s, step, job);
      } else if step.Load? {
        assert s.slots[job.client].Some? ==> s.conns[s.slots[job.client].value].owner == job.client;
      }
    }
  }

  lemma SoundJobStays(s: State, step: Step, job: Job)
    requires Enabled(s, step) && JobSound(s, job)
    ensures JobSound(Apply(s, step), job)
  {
    if job.at.HasConn() {
      ConnAdvances(s, step, job.at.conn);
    }
  }

  lemma StepKeepsJobs(s: State, step: Step)
    requires Protocol(s) && Enabled(s, step)
    ensures JobsSound(Apply(s, step))
  {
    var s' := Apply(s, step);
    forall j | 0 <= j < |s'.jobs| ensures JobSound(s', s'.jobs[j]) { StepKeepsJob(s, step, j); }
  }

  /** Addresses are only ever added to what a dialer listed. */
  lemma ListedGrows(s: State, step: Step, c: nat)
    requires Enabled(s, step)
    ensures Listed(s, c) <= Listed(Apply(s, step), c)
  {
  }

  lemma StepKeepsConnRegistered(s: State, step: Step, x: nat)
    requires Protocol(s) && Registry(s) && Enabled(s, step) && x < |Apply(s, step).conns|
    ensures ConnRegistered(Apply(s, step), x)
  {
    if x < |s.conns| {
      assert ConnRegistered(s, x);
      if step.JobClose? {
        assert JobSound(s, s.jobs[step.j]);
      }
      OldConnRegistered(s, step, x);
    } else {
      assert PhaseListed(s, step.c);
    }
  }

  lemma OldConnRegistered(s: State, step: Step, x: nat)
    requires Enabled(s, step) && x < |s.conns| && ConnRegistered(s, x)
    requires step.JobClose? ==> s.jobs[step.j].at.Holds(x) ==> !s.conns[x].stage.Dialed?
    ensures ConnRegistered(Apply(s, step), x)
  {
    ConnAdvances(s, step, x);
    ListedGrows(s, step, s.conns[x].owner);
  }

  lemma StepKeepsPhaseListed(s: State, step: Step, c: nat)
    requires Registry(s) && Enabled(s, step) && c < |Apply(s, step).phases|
    ensures PhaseListed(Apply(s, step), c)
  {
    assert PhaseListed(s, c);
    ListedGrows(s, step, c);
  }

  lemma StepKeepsRegistry(s: State, step: Step)
    requires Protocol(s) && Registry(s) && Enabled(s, step)
    ensures Registry(Apply(s, step))
  {
    var s' := Apply(s, step);
    forall g | 0 <= g < |s'.dialers| ensures RotationSound(s'.dialers[g]) { assert RotationSound(s.dialers[g]); }
    forall x | 0 <= x < |s'.conns| ensures ConnRegistered(s', x) { StepKeepsConnRegistered(s, step, x); }
    forall c | 0 <= c < |s'.phases| ensures PhaseListed(s', c) { StepKeepsPhaseListed(s, step, c); }
  }

  lemma StepKeepsAll(s: State, step: Step)
    requires Protocol(s) && Registry(s) && Enabled(s, step)
    ensures Protocol(Apply(s, step)) && Registry(Apply(s, step))
  {
    StepKeepsShape(s, step);
    StepKeepsOneOpen(s, step);
    StepKeepsSlotsSound(s, step);
    StepKeepsSlotsComplete(s, step);
    StepKeepsJobs(s, step);
    StepKeepsRegistry(s, step);
  }

  // ---- Over every run ----

  lemma {:induction false} RunKeeps(s: State, steps: seq<Step>)
    requires Protocol(s) && Registry(s) && IsRun(s, steps)
    ensures Protocol(Run(s, steps)) && Registry(Run(s, steps))
    decreases |steps|
  {
    if steps != [] {
      StepKeepsAll(s, steps[0]);
      RunKeeps(Apply(s, steps[0]), steps[1..]);
    }
  }

  /** In every reachable state the slot of a client points at its open stored connection, a
      client has at most one open connection, and the registry invariant holds. */
  lemma ReachableIsSound(lists: seq<seq<string>>, groupOf: seq<nat>, steps: seq<Step>)
    requires WellFormed(lists, groupOf) && IsRun(Init(lists, groupOf), steps)
    ensures Protocol(Run(Init(lists, groupOf), steps)) && Registry(Run(Init(lists, groupOf), steps))
  {
    RunKeeps(Init(lists, groupOf), steps);
  }

  lemma AtMostOneOpen(s: State, x: nat, y: nat)
    requires Protocol(s) && x < |s.conns| && y < |s.conns|
    requires s.conns[x].Open() && s.conns[y].Open() && s.conns[x].owner == s.conns[y].owner
    ensures x == y
  {
    assert s.phases[s.conns[x].owner] == Serving(x) && s.phases[s.conns[y].owner] == Serving(y);
  }

  /** The goroutines of the Reconnect that began when there were first jobs have all finished. */
  predicate Returned(s: State, first: nat) {
    first + |s.slots| <= |s.jobs| && forall j :: first <= j < first + |s.slots| ==> s.jobs[j].at.Done?
  }

  // ---- What a Reconnect closes ----

  /** Connection x of goroutine j's client is in the slot or was, and is open only until j is through with it. */
  predicate Found(s: State, j: nat, x: nat) {
    && j < |s.jobs| && x < |s.conns|
    && s.conns[x].owner == s.jobs[j].client && s.conns[x].InSlotStage()
    && (s.conns[x].Open() ==> s.jobs[j].at.ToLoad? || s.jobs[j].at.Holds(x))
  }

  lemma StepKeepsFound(s: State, step: Step, j: nat, x: nat)
    requires Protocol(s) && Enabled(s, step) && Found(s, j, x)
    ensures Found(Apply(s, step), j, x)
  {
    ConnAdvances(s, step, x);
    assert JobSound(s, s.jobs[j]);
    if s.conns[x].Open() {
      assert s.slots[s.conns[x].owner] == Some(x);
    }
  }

  lemma {:induction false} RunKeepsFound(s: State, steps: seq<Step>, j: nat, x: nat)
    requires Protocol(s) && Registry(s) && IsRun(s, steps) && Found(s, j, x)
    ensures Found(Run(s, steps), j, x) && |Run(s, steps).slots| == |s.slots|
    decreases |steps|
  {
    if steps != [] {
      StepKeepsFound(s, steps[0], j, x);
      StepKeepsAll(s, steps[0]);
      RunKeepsFound(Apply(s, steps[0]), steps[1..], j, x);
    }
  }

  /** The first main result. Every connection that was in its client's slot when a Reconnect began is closed when
      that Reconnect has returned, and ever after, whatever else goes on meanwhile. */
  lemma ReconnectClosesWhatItFound(start: State, after: seq<Step>, x: nat)
    requires Protocol(start) && Registry(start) && IsRun(Apply(start, Begin), after)
    requires Returned(Run(Apply(start, Begin), after), |start.jobs|)
    requires x < |start.conns| && start.conns[x].InSlotStage()
    ensures x < |Run(Apply(start, Begin), after).conns| && !Run(Apply(start, Begin), after).conns[x].Open()
  {
    var begun := Apply(start, Begin);
    var j := |start.jobs| + start.conns[x].owner;
    StepKeepsAll(start, Begin);
    assert begun.jobs[j] == Job(start.conns[x].owner, ToLoad);
    RunKeepsFound(begun, after, j, x);
    assert Run(begun, after).jobs[j].at.Done?;
  }

  /** If connection x was handshaken, it was with the floor-th certificate or a newer one. */
  predicate Young(s: State, x: nat, floor: nat) {
    floor <= s.current && (x < |s.conns| && s.conns[x].stage.Shaken? ==> floor <= s.conns[x].stage.cert)
  }

  /** A handshake presents the newest certificate. */
  lemma {:induction false} RunKeepsYoung(s: State, steps: seq<Step>, x: nat, floor: nat)
    requires IsRun(s, steps) && Young(s, x, floor)
    ensures Young(Run(s, steps), x, floor)
    decreases |steps|
  {
    if steps != [] {
      RunKeepsYoung(Apply(s, steps[0]), steps[1..], x, floor);
    }
  }

  /** The second main result. Certificate v was stored before a Reconnect began; other dials,
      handshakes, closes, updates and Reconnects go on meanwhile. Once that
      Reconnect has returned, and ever after, no open connection was handshaken with a
      certificate older than v. */
  lemma ReconnectLeavesNoOldConnection(
    lists: seq<seq<string>>, groupOf: seq<nat>, before: seq<Step>, after: seq<Step>, v: nat)
    requires WellFormed(lists, groupOf)
    requires IsRun(Init(lists, groupOf), before)
    requires v <= Run(Init(lists, groupOf), before).current
    requires IsRun(Apply(Run(Init(lists, groupOf), before), Begin), after)
    ensures
      var start := Run(Init(lists, groupOf), before);
      var end := Run(Apply(start, Begin), after);
      Returned(end, |start.jobs|) ==>
        forall x :: 0 <= x < |end.conns| && end.conns[x].Open() && end.conns[x].stage.Shaken? ==>
          v <= end.conns[x].stage.cert
  {
    var start := Run(Init(lists, groupOf), before);
    var end := Run(Apply(start, Begin), after);
    ReachableIsSound(lists, groupOf, before);
    if Returned(end, |start.jobs|) {
      forall x | 0 <= x < |end.conns| && end.conns[x].Open() && end.conns[x].stage.Shaken?
        ensures v <= end.conns[x].stage.cert
      {
        if x < |start.conns| && start.conns[x].InSlotStage() {
          ReconnectClosesWhatItFound(start, after, x);
        } else {
          RunKeepsYoung(Apply(start, Begin), after, x, v);
        }
      }
    }
  }

  /** The CompareAndSwap at the end of a reconnect never takes an open connection out of the slot. */
  lemma SwapErasesOnlyClosed(s: State, j: nat)
    requires Protocol(s) && Enabled(s, JobSwap(j)) && Apply(s, JobSwap(j)).slots != s.slots
    ensures
      var c := s.jobs[j].client;
      && s.slots[c].Some? && s.slots[c].value < |s.conns| && !s.conns[s.slots[c].value].Open()
      && forall x :: 0 <= x < |s.conns| && s.conns[x].owner == c && s.conns[x].Open() ==> !s.conns[x].InSlotStage()
  {
    assert JobSound(s, s.jobs[j]);
  }

  // ---- A Reconnect cannot get stuck ----

  /** The steps a goroutine still waits for, its own and those of whoever is closing the connection. */
  function Work(s: State, at: Point): nat {
    match at
    case ToLoad => 7
    case Loaded(_) => 6
    case Closing(x) => if x < |s.conns| then 2 + CloseLeft(s.conns[x].once) else 2
    case Closed(_) => 1
    case Done => 0
  }

  lemma WorkNeverGrows(s: State, step: Step, j: nat)
    requires Protocol(s) && Enabled(s, step) && j < |s.jobs|
    ensures j < |Apply(s, step).jobs|
    ensures Work(Apply(s, step), Apply(s, step).jobs[j].at) <= Work(s, s.jobs[j].at)
  {
    assert JobSound(s, s.jobs[j]);
    if s.jobs[j].at.HasConn() {
      ConnAdvances(s, step, s.jobs[j].at.conn);
    }
  }

  /** A step of goroutine j, or of whoever is closing the connection it holds. */
  predicate Helps(s: State, step: Step, j: nat)
    requires j < |s.jobs|
  {
    match step
    case Load(i) => i == j
    case JobClose(i) => i == j
    case JobCloseReturns(i) => i == j
    case JobSwap(i) => i == j
    case CloseEnter(x) => s.jobs[j].at.Holds(x)
    case CloseRemove(x) => s.jobs[j].at.Holds(x)
    case CloseFinish(x) => s.jobs[j].at.Holds(x)
    case _ => false
  }

  /** While a goroutine is not done, some step that it or the closing party can take now shortens its wait. */
  lemma ReconnectCanProceed(s: State, j: nat) returns (step: Step)
    requires Protocol(s) && j < |s.jobs| && !s.jobs[j].at.Done?
    ensures Enabled(s, step) && Helps(s, step, j) && j < |Apply(s, step).jobs|
    ensures Work(Apply(s, step), Apply(s, step).jobs[j].at) < Work(s, s.jobs[j].at)
  {
    assert JobSound(s, s.jobs[j]);
    match s.jobs[j].at
    case ToLoad => step := Load(j);
    case Loaded(_) => step := JobClose(j);
    case Closing(x) =>
      step := match s.conns[x].once
              case Unused => CloseEnter(x)
              case Entered => CloseRemove(x)
              case Removed => CloseFinish(x)
              case Finished => JobCloseReturns(j);
    case Closed(_) => step := JobSwap(j);
    case Done =>
  }

  // ---- When a Reconnect leaves no connection open ----

  /** Client c is dialing, or has dialed and not stored the connection yet. */
  predicate Underway(s: State, c: nat)
    requires c < |s.phases|
  {
    match s.phases[c]
    case Resting => false
    case Picked(_) => true
    case Connecting(_) => true
    case Serving(x) => Unstored(s, x)
  }

  /** Connection x is open and not in the slot yet. */
  predicate Unstored(s: State, x: nat) {
    x < |s.conns| && s.conns[x].Open() && !s.conns[x].InSlotStage()
  }

  predicate NothingUnderway(s: State) {
    forall c :: 0 <= c < |s.phases| ==> !Underway(s, c)
  }

  /** No client starts a dial. */
  predicate NoDialStarts(steps: seq<Step>) {
    forall step :: step in steps ==> !step.PickAddrs?
  }

  predicate NoneOpen(s: State) {
    forall x :: 0 <= x < |s.conns| ==> !s.conns[x].Open()
  }

  /** However a Reconnect from s runs, unless a client starts a dial meanwhile, no connection is open on return. */
  ghost predicate ClosesAll(s: State) {
    forall after ::
      IsRun(Apply(s, Begin), after) && NoDialStarts(after) && Returned(Run(Apply(s, Begin), after), |s.jobs|) ==>
        NoneOpen(Run(Apply(s, Begin), after))
  }

  predicate NoneDialing(s: State) {
    forall c :: 0 <= c < |s.phases| ==> s.phases[c].Resting? || s.phases[c].Serving?
  }

  /** Where nobody dials and nobody starts to, no connection is new, and none is opened again. */
  lemma {:induction false} NoNewConnections(s: State, steps: seq<Step>)
    requires NoneDialing(s) && IsRun(s, steps) && NoDialStarts(steps)
    ensures |Run(s, steps).conns| == |s.conns|
    ensures forall x :: 0 <= x < |s.conns| && Run(s, steps).conns[x].Open() ==> s.conns[x].Open()
    decreases |steps|
  {
    if steps != [] {
      assert steps[0] in steps;
      NoNewConnections(Apply(s, steps[0]), steps[1..]);
      forall x | 0 <= x < |s.conns| && Apply(s, steps[0]).conns[x].Open() ensures s.conns[x].Open() {
        ConnAdvances(s, steps[0], x);
      }
    }
  }

  lemma {:induction false} RunConcat(s: State, a: seq<Step>, b: seq<Step>)
    requires IsRun(s, a) && IsRun(Run(s, a), b)
    ensures IsRun(s, a + b) && Run(s, a + b) == Run(Run(s, a), b)
    decreases |a|
  {
    if a == [] {
      assert a + b == b;
    } else {
      assert (a + b)[1..] == a[1..] + b;
      RunConcat(Apply(s, a[0]), a[1..], b);
    }
  }

  lemma HelpSpares(s: State, step: Step, j: nat, y: nat)
    requires Protocol(s) && Enabled(s, step) && j < |s.jobs| && Helps(s, step, j) && Unstored(s, y)
    ensures
      var s' := Apply(s, step);
      && !step.PickAddrs? && Unstored(s', y) && |s'.jobs| == |s.jobs| && |s'.slots| == |s.slots|
      && forall i :: 0 <= i < |s.jobs| && s.jobs[i].at.Done? ==> s'.jobs[i].at.Done?
  {
    assert JobSound(s, s.jobs[j]);
  }

  /** Goroutine j can finish without touching a connection that is not stored yet. */
  lemma {:induction false} FinishJob(s: State, j: nat, y: nat) returns (steps: seq<Step>, end: State)
    requires Protocol(s) && Registry(s) && j < |s.jobs| && Unstored(s, y)
    ensures IsRun(s, steps) && NoDialStarts(steps) && end == Run(s, steps)
    ensures Protocol(end) && Registry(end) && Unstored(end, y)
    ensures |end.jobs| == |s.jobs| && |end.slots| == |s.slots| && end.jobs[j].at.Done?
    ensures forall i :: 0 <= i < |s.jobs| && s.jobs[i].at.Done? ==> end.jobs[i].at.Done?
    decreases Work(s, s.jobs[j].at)
  {
    if s.jobs[j].at.Done? {
      steps, end := [], s;
    } else {
      var step := ReconnectCanProceed(s, j);
      HelpSpares(s, step, j, y);
      StepKeepsAll(s, step);
      var rest;
      rest, end := FinishJob(Apply(s, step), j, y);
      steps := [step] + rest;
      assert steps[1..] == rest;
    }
  }

  lemma {:induction false} FinishJobs(s: State, first: nat, n: nat, y: nat) returns (steps: seq<Step>, end: State)
    requires Protocol(s) && Registry(s) && first + n <= |s.jobs| && Unstored(s, y)
    ensures IsRun(s, steps) && NoDialStarts(steps) && end == Run(s, steps) && Unstored(end, y)
    ensures |end.jobs| == |s.jobs| && |end.slots| == |s.slots|
    ensures forall i :: first <= i < first + n ==> end.jobs[i].at.Done?
    ensures forall i :: 0 <= i < |s.jobs| && s.jobs[i].at.Done? ==> end.jobs[i].at.Done?
    decreases n
  {
    if n == 0 {
      steps, end := [], s;
    } else {
      var mid, more;
      steps, mid := FinishJob(s, first, y);
      more, end := FinishJobs(mid, first + 1, n - 1, y);
      RunConcat(s, steps, more);
      steps := steps + more;
    }
  }

  /** A dial under way can go on until there is an open connection that is not stored. */
  lemma CompleteDial(s: State, c: nat) returns (steps: seq<Step>, end: State, y: nat)
    requires Protocol(s) && Registry(s) && c < |s.phases| && Underway(s, c)
    ensures IsRun(s, steps) && NoDialStarts(steps) && end == Run(s, steps)
    ensures Protocol(end) && Registry(end) && Unstored(end, y)
    ensures end.jobs == s.jobs && end.slots == s.slots
    decreases s.phases[c].Picked?
  {
    match s.phases[c]
    case Serving(x) => steps, end, y := [], s, x;
    case Connecting(_) =>
      StepKeepsAll(s, DialSucceeds(c));
      steps, end, y := [DialSucceeds(c)], Apply(s, DialSucceeds(c)), |s.conns|;
      assert steps[1..] == [];
    case Picked(_) =>
      assert PhaseListed(s, c);
      StepKeepsAll(s, TakeIndex(c));
      var rest;
      rest, end, y := CompleteDial(Apply(s, TakeIndex(c)), c);
      steps := [TakeIndex(c)] + rest;
      assert steps[1..] == rest;
    case Resting =>
  }

  /** A dial under way when a Reconnect begins may outlast it: the run that shows so. */
  lemma DialUnderwayMayBeMissed(s: State, c: nat) returns (after: seq<Step>, y: nat)
    requires Protocol(s) && Registry(s) && c < |s.phases| && Underway(s, c)
    ensures IsRun(Apply(s, Begin), after) && NoDialStarts(after)
    ensures Returned(Run(Apply(s, Begin), after), |s.jobs|) && Unstored(Run(Apply(s, Begin), after), y)
  {
    var begun := Apply(s, Begin);
    StepKeepsAll(s, Begin);
    var dialed, more, end;
    after, dialed, y := CompleteDial(begun, c);
    more, end := FinishJobs(dialed, |s.jobs|, |s.slots|, y);
    RunConcat(begun, after, more);
    after := after + more;
  }

  /** So the documented promise does fail: a client that is about to dial when a Reconnect begins. */
  lemma ReconnectMayLeaveOneOpen(addr: string) returns (after: seq<Step>, y: nat)
    ensures
      var s := Apply(Init([[addr]], [0]), PickAddrs(0));
      && IsRun(Init([[addr]], [0]), [PickAddrs(0)]) && Run(Init([[addr]], [0]), [PickAddrs(0)]) == s
      && IsRun(Apply(s, Begin), after) && NoDialStarts(after)
      && Returned(Run(Apply(s, Begin), after), 0) && Unstored(Run(Apply(s, Begin), after), y)
  {
    var start := Init([[addr]], [0]);
    assert [PickAddrs(0)][1..] == [];
    ReachableIsSound([[addr]], [0], [PickAddrs(0)]);
    after, y := DialUnderwayMayBeMissed(Apply(start, PickAddrs(0)), 0);
  }

  /** The third main result. From any reachable state, a Reconnect during which no client starts a dial leaves no
      connection open, however it runs, exactly when no client was in the middle of one when it began. */
  lemma ReconnectClosesAllExactly(lists: seq<seq<string>>, groupOf: seq<nat>, before: seq<Step>)
    requires WellFormed(lists, groupOf) && IsRun(Init(lists, groupOf), before)
    ensures var s := Run(Init(lists, groupOf), before); ClosesAll(s) <==> NothingUnderway(s)
  {
    var s := Run(Init(lists, groupOf), before);
    ReachableIsSound(lists, groupOf, before);
    if NothingUnderway(s) {
      forall after | IsRun(Apply(s, Begin), after) && NoDialStarts(after)
                     && Returned(Run(Apply(s, Begin), after), |s.jobs|)
        ensures NoneOpen(Run(Apply(s, Begin), after))
      {
        ClosesWhatIsThere(s, after);
      }
    } else {
      var c :| 0 <= c < |s.phases| && Underway(s, c);
      var after, y := DialUnderwayMayBeMissed(s, c);
      assert Run(Apply(s, Begin), after).conns[y].Open();
    }
  }

  lemma ClosesWhatIsThere(s: State, after: seq<Step>)
    requires Protocol(s) && Registry(s) && NothingUnderway(s)
    requires IsRun(Apply(s, Begin), after) && NoDialStarts(after)
    requires Returned(Run(Apply(s, Begin), after), |s.jobs|)
    ensures NoneOpen(Run(Apply(s, Begin), after))
  {
    var end := Run(Apply(s, Begin), after);
    forall c | 0 <= c < |s.phases| ensures s.phases[c].Resting? || s.phases[c].Serving? { assert !Underway(s, c); }
    NoNewConnections(Apply(s, Begin), after);
    forall x | 0 <= x < |end.conns| ensures !end.conns[x].Open() {
      if end.conns[x].Open() {
        assert s.conns[x].Open() && s.phases[s.conns[x].owner] == Serving(x);
        assert !Underway(s, s.conns[x].owner);
        ReconnectClosesWhatItFound(s, after, x);
      }
    }
  }

  // ---- The order of Update and Reconnect matters ----

  lemma Extend(s: State, steps: seq<Step>, last: Step) returns (longer: seq<Step>, end: State)
    requires IsRun(s, steps) && Enabled(Run(s, steps), last)
    ensures IsRun(s, longer) && Run(s, longer) == end == Apply(Run(s, steps), last)
  {
    assert [last][1..] == [];
    RunConcat(s, steps, [last]);
    longer, end := steps + [last], Apply(Run(s, steps), last);
  }

  lemma ReconnectOfIdleClientReturns(addr: string) returns (steps: seq<Step>, end: State)
    ensures IsRun(Init([[addr]], [0]), steps) && Run(Init([[addr]], [0]), steps) == end
    ensures end == Init([[addr]], [0]).(jobs := [Job(0, Done)])
  {
    var s := Init([[addr]], [0]);
    steps, end := Extend(s, [], Begin);
    assert end.jobs == [Job(0, ToLoad)];
    steps, end := Extend(s, steps, Load(0));
    assert end.jobs == [Job(0, Done)];
  }

  lemma RestingClientConnects(s: State, steps: seq<Step>, addr: string) returns (longer: seq<Step>, end: State)
    requires IsRun(s, steps)
    requires var from := Run(s, steps);
             && from.phases == [Resting] && from.slots == [None] && from.conns == []
             && from.groupOf == [0] && from.dialers == [NewRotation([addr])]
    ensures IsRun(s, longer) && Run(s, longer) == end
    ensures end.conns == [Conn(0, addr, Registered, Unused, 0)] && end.slots == [None]
    ensures end.jobs == Run(s, steps).jobs && end.current == Run(s, steps).current
  {
    longer, end := Extend(s, steps, PickAddrs(0));
    longer, end := Extend(s, longer, TakeIndex(0));
    assert end.phases == [Connecting(addr)];
    longer, end := Extend(s, longer, DialSucceeds(0));
    longer, end := Extend(s, longer, Register(0));
  }

  /** A Reconnect that began before the Update may return and leave an open connection on the old certificate. */
  lemma UpdateAfterBeginMayBeMissed(addr: string) returns (steps: seq<Step>, end: State)
    ensures IsRun(Init([[addr]], [0]), steps) && Run(Init([[addr]], [0]), steps) == end
    ensures Returned(end, 0) && |end.slots| == 1 && end.current == 1
    ensures |end.conns| == 1 && end.conns[0].Open() && end.conns[0].stage == Shaken(0)
  {
    var s := Init([[addr]], [0]);
    steps, end := ReconnectOfIdleClientReturns(addr);
    steps, end := RestingClientConnects(s, steps, addr);
    steps, end := Extend(s, steps, StoreSlot(0));
    steps, end := Extend(s, steps, Handshake(0));
    steps, end := Extend(s, steps, Update);
  }
}
