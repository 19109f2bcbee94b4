/** Start-up ends: the number of unresolved endpoints never grows from one scan to the next, and once
    a task's peers have published their endpoints one more scan resolves them all. A connection of a
    task with itself is the exception: it is never resolved. */
module StartupProgress {
  import opened Startup
  import opened StartupResults
  import H = Handshake

  /** Both endpoints of connection `c` are in the shared list. */
  predicate BothPublished(app: App, s: State, c: nat)
    requires Shaped(app, s) && Indexed(app) && c < |app.conns|
  {
    assert ListedByBoth(app, c);
    Published(s.tasks[app.conns[c].source], app.srcSlot[c]) && Published(s.tasks[app.conns[c].sink], app.snkSlot[c])
  }

  /** Every peer of task `t` has published the endpoint that `t` is looking for; other tasks, and other
      endpoints of the peers, do not matter. */
  predicate PeersPublished(app: App, s: State, t: nat)
    requires Shaped(app, s) && Indexed(app)
  {
    forall c :: 0 <= c < |app.conns| && (app.conns[c].source == t || app.conns[c].sink == t) ==>
      BothPublished(app, s, c)
  }

  /** What a task reports at the end of a scan is the number of endpoints it has not resolved. */
  lemma ScanCountsUnresolved(app: App, s: State, t: nat)
    requires Indexed(app) && Inv(app, s) && t < |s.tasks| && s.tasks[t].phase.Scanning?
    requires s.tasks[t].phase.i == |s.tasks[t].slots|
    ensures s.tasks[t].phase.unresolved == Unresolved(s.tasks[t].slots)
  {
    assert PhaseOk(app, s, t);
    assert s.tasks[t].slots[..|s.tasks[t].slots|] == s.tasks[t].slots;
  }

  lemma {:induction false} UnresolvedFewer(a: seq<Slot>, b: seq<Slot>)
    requires |a| == |b| && forall k :: 0 <= k < |a| && a[k].remote.Some? ==> b[k].remote.Some?
    ensures Unresolved(b) <= Unresolved(a)
    decreases |a|
  {
    if a != [] { UnresolvedFewer(a[..|a| - 1], b[..|b| - 1]); }
  }

  /** After the publishing loop a resolved endpoint stays resolved, so whatever happens the count
      never goes up. */
  lemma StepKeepsResolved(app: App, s: State, st: Step, t: nat)
    requires Indexed(app) && Inv(app, s) && Enabled(app, s, st) && t < |s.tasks| && !s.tasks[t].phase.Publishing?
    ensures var s' := Next(app, s, st);
            && Shaped(app, s') && !s'.tasks[t].phase.Publishing?
            && Unresolved(s'.tasks[t].slots) <= Unresolved(s.tasks[t].slots)
  {
    var s' := Next(app, s, st);
    StepKeepsShape(app, s, st);
    forall k | 0 <= k < |s.tasks[t].slots| && s.tasks[t].slots[k].remote.Some?
      ensures s'.tasks[t].slots[k].remote.Some? {
      if st.Begin? && st.t == t && s.tasks[t].phase.Scanning? && s.tasks[t].phase.i == k {
        assert PhaseOk(app, s, t) && ListsOwn(app, t, k);
        if s.tasks[t].phase.found { assert PeerFound(app, s, t, k); }
      }
    }
    UnresolvedFewer(s.tasks[t].slots, s'.tasks[t].slots);
  }

  lemma {:induction false} UnresolvedNeverGrows(app: App, s: State, steps: seq<Step>, t: nat)
    requires Indexed(app) && Inv(app, s) && Run(app, s, steps) && t < |s.tasks| && !s.tasks[t].phase.Publishing?
    ensures var s' := Exec(app, s, steps);
            Shaped(app, s') && Inv(app, s') && Unresolved(s'.tasks[t].slots) <= Unresolved(s.tasks[t].slots)
    decreases |steps|
  {
    if steps != [] {
      StepKeepsResolved(app, s, steps[0], t);
      StepKeepsInv(app, s, steps[0]);
      UnresolvedNeverGrows(app, Next(app, s, steps[0]), steps[1..], t);
    }
  }

  /** All endpoints have been looked at. */
  predicate AtScanEnd(task: Task) {
    task.phase.Scanning? && task.phase.i == |task.slots|
  }

  /** What a task has counted at the end of a scan is the number of endpoints it has not resolved, and
      at the end of no later scan has it counted more. */
  lemma ScansNeverWorsen(app: App, s: State, steps: seq<Step>, t: nat)
    requires Indexed(app) && Inv(app, s) && Run(app, s, steps) && t < |s.tasks| && AtScanEnd(s.tasks[t])
    ensures var s' := Exec(app, s, steps);
            && Shaped(app, s') && s.tasks[t].phase.unresolved == Unresolved(s.tasks[t].slots)
            && (AtScanEnd(s'.tasks[t]) ==> s'.tasks[t].phase.unresolved == Unresolved(s'.tasks[t].slots)
                                           && s'.tasks[t].phase.unresolved <= s.tasks[t].phase.unresolved)
  {
    UnresolvedNeverGrows(app, s, steps, t);
    ScanCountsUnresolved(app, s, t);
    var s' := Exec(app, s, steps);
    if AtScanEnd(s'.tasks[t]) { ScanCountsUnresolved(app, s', t); }
  }

  // ----- the last scan

  /** With its peers' endpoints published, every pointer a task looks for is there to be found. */
  lemma PublishedIsFound(app: App, s: State, t: nat, i: nat)
    requires Indexed(app) && Inv(app, s) && PeersPublished(app, s, t) && t < |s.tasks| && i < |s.tasks[t].slots|
    requires Published(s.tasks[t], i)
    ensures app.index[t][i] < |app.conns| && !s.tasks[t].slots[i].mode.Uninitialised?
    ensures PeerPointer(s, s.tasks[t].slots[i], app.index[t][i]).Some?
  {
    OnePlace(app, t, i);
    assert SlotOk(app, s, t, i);
    var c := app.index[t][i];
    assert ListedByBoth(app, c) && BothPublished(app, s, c);
    var a, b := SourceOf(app, c), SinkOf(app, c);
    assert SlotOk(app, s, a.task, a.slot) && SlotOk(app, s, b.task, b.slot);
    OnePlace(app, a.task, a.slot);
    OnePlace(app, b.task, b.slot);
  }

  lemma PeersStayPublished(app: App, s: State, st: Step, t: nat)
    requires Indexed(app) && Inv(app, s) && Enabled(app, s, st) && PeersPublished(app, s, t)
    ensures Shaped(app, Next(app, s, st)) && PeersPublished(app, Next(app, s, st), t)
  {
    StepKeepsShape(app, s, st);
    var s' := Next(app, s, st);
    forall u, i | 0 <= u < |s.tasks| && Published(s.tasks[u], i) ensures Published(s'.tasks[u], i) {}
    forall c | 0 <= c < |app.conns| && (app.conns[c].source == t || app.conns[c].sink == t)
      ensures BothPublished(app, s', c) {
      assert BothPublished(app, s, c) && ListedByBoth(app, c);
    }
  }

  /** Own steps that a task still has to make to the end of the scan it is in. */
  function Remaining(task: Task): nat {
    match task.phase
    case Scanning(i, _, found) => if i < |task.slots| then 2 * (|task.slots| - i) + (if found then 0 else 1) else 1
    case _ => 0
  }

  /** Own steps of one scan in which every peer is found. */
  function ScanSteps(endpoints: nat): nat {
    2 * endpoints + 1
  }

  /** Own steps to the end of start-up: this scan, and another one if it has already missed a peer. */
  function ToResolve(task: Task): nat {
    Remaining(task) + (if task.phase.Scanning? && task.phase.unresolved > 0 then ScanSteps(|task.slots|) else 0)
  }

  lemma ToResolveBound(task: Task)
    ensures ToResolve(task) <= 2 * ScanSteps(|task.slots|)
    ensures task.phase == Scanning(0, 0, false) ==> ToResolve(task) == ScanSteps(|task.slots|)
    ensures task.phase.Scanning? ==> ToResolve(task) > 0
  {
  }

  lemma OwnStepAdvances(app: App, s: State, t: nat)
    requires Indexed(app) && Inv(app, s) && PeersPublished(app, s, t) && t < |s.tasks| && s.tasks[t].phase.Scanning?
    ensures var s' := Next(app, s, Begin(t));
            && Shaped(app, s') && !s'.tasks[t].phase.Publishing? && |s'.tasks[t].slots| == |s.tasks[t].slots|
            && ToResolve(s'.tasks[t]) < ToResolve(s.tasks[t])
  {
    StepKeepsShape(app, s, Begin(t));
    assert PhaseOk(app, s, t);
    var i := s.tasks[t].phase.i;
    if i < |s.tasks[t].slots| { PublishedIsFound(app, s, t, i); }
  }

  lemma OtherStepWaits(app: App, s: State, st: Step, t: nat)
    requires Indexed(app) && Inv(app, s) && Enabled(app, s, st) && t < |s.tasks| && st != Begin(t)
    ensures var s' := Next(app, s, st);
            && Shaped(app, s') && s'.tasks[t].phase == s.tasks[t].phase && |s'.tasks[t].slots| == |s.tasks[t].slots|
  {
    StepKeepsShape(app, s, st);
  }

  function OwnSteps(steps: seq<Step>, t: nat): nat {
    if steps == [] then 0 else (if steps[0] == Begin(t) then 1 else 0) + OwnSteps(steps[1..], t)
  }

  /** With its peers' endpoints published, a scanning task that is given enough steps of its own ends
      its start-up, whatever the other tasks do in between. */
  lemma {:induction false} ScanningEnds(app: App, s: State, steps: seq<Step>, t: nat)
    requires Indexed(app) && Inv(app, s) && PeersPublished(app, s, t) && Run(app, s, steps) && t < |s.tasks|
    requires !s.tasks[t].phase.Publishing?
    ensures var s' := Exec(app, s, steps);
            Shaped(app, s') && !s'.tasks[t].phase.Publishing?
            && (s'.tasks[t].phase.Active? || OwnSteps(steps, t) + ToResolve(s'.tasks[t]) <= ToResolve(s.tasks[t]))
    decreases |steps|
  {
    if steps != [] {
      var s' := Next(app, s, steps[0]);
      StepKeepsInv(app, s, steps[0]);
      PeersStayPublished(app, s, steps[0], t);
      if steps[0] == Begin(t) { OwnStepAdvances(app, s, t); } else { OtherStepWaits(app, s, steps[0], t); }
      ScanningEnds(app, s', steps[1..], t);
      if s'.tasks[t].phase.Active? { ActiveStays(app, s', steps[1..], t); }
    }
  }

  lemma {:induction false} ActiveStays(app: App, s: State, steps: seq<Step>, t: nat)
    requires Indexed(app) && Shaped(app, s) && Run(app, s, steps) && t < |s.tasks| && s.tasks[t].phase.Active?
    ensures var s' := Exec(app, s, steps); Shaped(app, s') && s'.tasks[t].phase.Active?
    decreases |steps|
  {
    if steps != [] {
      StepKeepsShape(app, s, steps[0]);
      ActiveStays(app, Next(app, s, steps[0]), steps[1..], t);
    }
  }

  /** Once a task's peers have published their ends of its connections, its next full scan, the first or
      any later one, ends its start-up: it is given at most so many more steps of its own, and as long
      as it has not started it can take another. */
  lemma ResolutionTheorem(app: App, s: State, steps: seq<Step>, t: nat)
    requires Indexed(app) && Inv(app, s) && PeersPublished(app, s, t) && Run(app, s, steps) && t < |s.tasks|
    requires s.tasks[t].phase == Scanning(0, 0, false)
    ensures var s' := Exec(app, s, steps);
            && Shaped(app, s')
            && (s'.tasks[t].phase.Active?
               || (OwnSteps(steps, t) < ScanSteps(|s.tasks[t].slots|) && Enabled(app, s', Begin(t))))
  {
    ScanningEnds(app, s, steps, t);
    ToResolveBound(s.tasks[t]);
    ToResolveBound(Exec(app, s, steps).tasks[t]);
  }

  // ----- from the very beginning

  /** Own steps to the end of the publishing loop. */
  function ToPublish(task: Task): nat {
    match task.phase
    case Publishing(i, stage) =>
      if i < |task.slots| then (PUBLISH + 1) * (|task.slots| - i) + 1 - (if stage <= PUBLISH then stage else PUBLISH)
        else 1
    case _ => 0
  }

  function PublishSteps(endpoints: nat): nat {
    (PUBLISH + 1) * endpoints + 1
  }

  lemma ToPublishPositive(app: App, s: State, t: nat)
    requires Indexed(app) && Inv(app, s) && t < |s.tasks|
    ensures s.tasks[t].phase.Publishing? ==> ToPublish(s.tasks[t]) > 0
  {
    assert PhaseOk(app, s, t);
  }

  lemma OwnStepPublishes(app: App, s: State, t: nat)
    requires Indexed(app) && Inv(app, s) && t < |s.tasks| && s.tasks[t].phase.Publishing?
    ensures var s' := Next(app, s, Begin(t));
            Shaped(app, s') && |s'.tasks[t].slots| == |s.tasks[t].slots|
              && ToPublish(s'.tasks[t]) < ToPublish(s.tasks[t])
  {
    StepKeepsShape(app, s, Begin(t));
    assert PhaseOk(app, s, t);
  }

  lemma {:induction false} PublishingEnds(app: App, s: State, steps: seq<Step>, t: nat)
    requires Indexed(app) && Inv(app, s) && Run(app, s, steps) && t < |s.tasks|
    ensures var s' := Exec(app, s, steps);
            Shaped(app, s') && Inv(app, s')
            && (!s'.tasks[t].phase.Publishing? || OwnSteps(steps, t) + ToPublish(s'.tasks[t]) <= ToPublish(s.tasks[t]))
    decreases |steps|
  {
    if steps != [] {
      var s' := Next(app, s, steps[0]);
      StepKeepsInv(app, s, steps[0]);
      if steps[0] != Begin(t) { OtherStepWaits(app, s, steps[0], t); }
      else if s.tasks[t].phase.Publishing? { OwnStepPublishes(app, s, t); }
      PublishingEnds(app, s', steps[1..], t);
      if !s.tasks[t].phase.Publishing? { NeverPublishesAgain(app, s, steps, t); }
    }
  }

  lemma {:induction false} NeverPublishesAgain(app: App, s: State, steps: seq<Step>, t: nat)
    requires Indexed(app) && Shaped(app, s) && Run(app, s, steps) && t < |s.tasks| && !s.tasks[t].phase.Publishing?
    ensures Shaped(app, Exec(app, s, steps)) && !Exec(app, s, steps).tasks[t].phase.Publishing?
    decreases |steps|
  {
    if steps != [] {
      StepKeepsShape(app, s, steps[0]);
      NeverPublishesAgain(app, Next(app, s, steps[0]), steps[1..], t);
    }
  }

  /** Start-up ends for every task: take a run whose first part gives each task the steps of its
      publishing loop, and any second part. At the end each task is active, or it has been given fewer
      steps of its own than two scans take and can take another. What the other tasks do in between, and
      how often, is arbitrary. */
  lemma StartupTheorem(app: App, s0: State, first: seq<Step>, second: seq<Step>)
    requires Indexed(app) && NoSelfConnection(app) && Initial(app, s0) && Run(app, s0, first)
    requires forall t :: 0 <= t < |s0.tasks| ==> OwnSteps(first, t) >= PublishSteps(|app.index[t]|)
    requires Shaped(app, Exec(app, s0, first)) && Run(app, Exec(app, s0, first), second)
    ensures var s2 := Exec(app, Exec(app, s0, first), second);
            && Shaped(app, s2)
            && forall t :: 0 <= t < |s2.tasks| ==>
                 s2.tasks[t].phase.Active?
                   || (OwnSteps(second, t) < 2 * ScanSteps(|app.index[t]|) && Enabled(app, s2, Begin(t)))
  {
    InitialInv(app, s0);
    var s1 := Exec(app, s0, first);
    RunKeepsInv(app, s0, first);
    forall t | 0 <= t < |s1.tasks| ensures !s1.tasks[t].phase.Publishing? {
      PublishingEnds(app, s0, first, t);
      ToPublishPositive(app, s1, t);
    }
    var s2 := Exec(app, s1, second);
    RunKeepsInv(app, s1, second);
    forall t | 0 <= t < |s2.tasks|
      ensures s2.tasks[t].phase.Active?
              || (OwnSteps(second, t) < 2 * ScanSteps(|app.index[t]|) && Enabled(app, s2, Begin(t)))
    {
      AllStarted(app, s1, t);
      ScanningEnds(app, s1, second, t);
      ToResolveBound(s1.tasks[t]);
      ToResolveBound(s2.tasks[t]);
    }
  }

  lemma AllStarted(app: App, s: State, t: nat)
    requires Indexed(app) && Shaped(app, s) && forall u :: 0 <= u < |s.tasks| ==> !s.tasks[u].phase.Publishing?
    ensures PeersPublished(app, s, t)
  {
    forall c | 0 <= c < |app.conns| ensures BothPublished(app, s, c) { assert ListedByBoth(app, c); }
  }

  // ----- a run in which all tasks start

  lemma {:induction false} RunAppend(app: App, s: State, a: seq<Step>, b: seq<Step>)
    requires Shaped(app, s) && Indexed(app) && Run(app, s, a)
    requires Shaped(app, Exec(app, s, a)) && Run(app, Exec(app, s, a), b)
    ensures Run(app, s, a + b) && Exec(app, s, a + b) == Exec(app, Exec(app, s, a), b)
    decreases |a|
  {
    hide Next, Enabled, Indexed;
    if a == [] {
      assert a + b == b;
    } else {
      StepKeepsShape(app, s, a[0]);
      RunAppend(app, Next(app, s, a[0]), a[1..], b);
      assert (a + b)[1..] == a[1..] + b;
    }
  }

  lemma OneStepRun(app: App, s: State, st: Step)
    requires Indexed(app) && Shaped(app, s) && Enabled(app, s, st)
    ensures Run(app, s, [st]) && Exec(app, s, [st]) == Next(app, s, st)
  {
    StepKeepsShape(app, s, st);
    assert [st][1..] == [];
    assert Run(app, Next(app, s, st), []);
  }

  /** Only task `t` has moved. */
  predicate OthersAsBefore(s: State, s': State, t: nat) {
    |s'.tasks| == |s.tasks| && forall u :: 0 <= u < |s.tasks| && u != t ==> s'.tasks[u] == s.tasks[u]
  }

  /** One task on its own publishes its endpoints. */
  lemma {:induction false} PublishAlone(app: App, s: State, t: nat) returns (steps: seq<Step>)
    requires Indexed(app) && Inv(app, s) && t < |s.tasks|
    ensures Run(app, s, steps)
    ensures var s' := Exec(app, s, steps);
            Inv(app, s') && OthersAsBefore(s, s', t) && !s'.tasks[t].phase.Publishing?
    decreases ToPublish(s.tasks[t])
  {
    hide Inv, Indexed;
    InvShape(app, s);
    steps := [];
    if s.tasks[t].phase.Publishing? {
      BeginAlone(app, s, t);
      OwnStepPublishes(app, s, t);
      StepKeepsInv(app, s, Begin(t));
      OneStepRun(app, s, Begin(t));
      var rest := PublishAlone(app, Next(app, s, Begin(t)), t);
      RunAppend(app, s, [Begin(t)], rest);
      steps := [Begin(t)] + rest;
    }
  }

  lemma InvShape(app: App, s: State)
    requires Indexed(app) && Inv(app, s)
    ensures Shaped(app, s)
  {
  }

  lemma BeginAlone(app: App, s: State, t: nat)
    requires Indexed(app) && Shaped(app, s) && Enabled(app, s, Begin(t))
    ensures OthersAsBefore(s, Next(app, s, Begin(t)), t)
  {
  }

  /** One task on its own, all peers' endpoints being published, starts. */
  lemma {:induction false} ScanAlone(app: App, s: State, t: nat) returns (steps: seq<Step>)
    requires Indexed(app) && Inv(app, s) && t < |s.tasks| && PeersPublished(app, s, t) && !s.tasks[t].phase.Publishing?
    ensures Run(app, s, steps)
    ensures var s' := Exec(app, s, steps);
            Inv(app, s') && OthersAsBefore(s, s', t) && s'.tasks[t].phase.Active?
    decreases ToResolve(s.tasks[t])
  {
    hide Inv, Indexed, PeersPublished;
    InvShape(app, s);
    steps := [];
    if !s.tasks[t].phase.Active? {
      BeginAlone(app, s, t);
      OwnStepAdvances(app, s, t);
      StepKeepsInv(app, s, Begin(t));
      PeersStayPublished(app, s, Begin(t), t);
      OneStepRun(app, s, Begin(t));
      var rest := ScanAlone(app, Next(app, s, Begin(t)), t);
      RunAppend(app, s, [Begin(t)], rest);
      steps := [Begin(t)] + rest;
    }
  }

  /** The first `n` tasks publish, one after the other. */
  lemma {:induction false} PublishInTurn(app: App, s: State, n: nat) returns (steps: seq<Step>)
    requires Indexed(app) && Inv(app, s) && n <= |s.tasks|
    ensures Run(app, s, steps)
    ensures var s' := Exec(app, s, steps);
            Inv(app, s') && |s'.tasks| == |s.tasks| && forall t :: 0 <= t < n ==> !s'.tasks[t].phase.Publishing?
  {
    hide Inv, Indexed;
    InvShape(app, s);
    steps := [];
    if n > 0 {
      var before := PublishInTurn(app, s, n - 1);
      var last := PublishAlone(app, Exec(app, s, before), n - 1);
      InvShape(app, Exec(app, s, before));
      RunAppend(app, s, before, last);
      steps := before + last;
    }
  }

  /** The first `n` tasks start, one after the other. */
  lemma {:induction false} ScanInTurn(app: App, s: State, n: nat) returns (steps: seq<Step>)
    requires Indexed(app) && Inv(app, s) && n <= |s.tasks|
    requires forall t :: 0 <= t < |s.tasks| ==> !s.tasks[t].phase.Publishing?
    ensures Run(app, s, steps)
    ensures var s' := Exec(app, s, steps);
            && Inv(app, s') && |s'.tasks| == |s.tasks|
            && (forall t :: 0 <= t < |s'.tasks| ==> !s'.tasks[t].phase.Publishing?)
            && forall t :: 0 <= t < n ==> s'.tasks[t].phase.Active?
  {
    hide Inv, Indexed, PeersPublished;
    InvShape(app, s);
    steps := [];
    if n > 0 {
      var before := ScanInTurn(app, s, n - 1);
      var s1 := Exec(app, s, before);
      InvShape(app, s1);
      AllStarted(app, s1, n - 1);
      var last := ScanAlone(app, s1, n - 1);
      RunAppend(app, s, before, last);
      steps := before + last;
    }
  }

  /** Without self-connections every application has, from every initial state, a run in which all of
      its tasks start. */
  lemma AllCanStart(app: App, s0: State) returns (steps: seq<Step>)
    requires Indexed(app) && NoSelfConnection(app) && Initial(app, s0)
    ensures Run(app, s0, steps) && Shaped(app, Exec(app, s0, steps))
    ensures forall t :: 0 <= t < |app.index| ==> Exec(app, s0, steps).tasks[t].phase.Active?
  {
    InitialInv(app, s0);
    var first := PublishInTurn(app, s0, |s0.tasks|);
    var second := ScanInTurn(app, Exec(app, s0, first), |s0.tasks|);
    RunAppend(app, s0, first, second);
    steps := first + second;
  }

  // ----- a task connected with itself

  /** While such a task starts up: its own endpoint is never there to be found. */
  predicate Hopeless(app: App, s: State, t: nat, c: nat, i: nat)
    requires Shaped(app, s) && Indexed(app) && t < |s.tasks| && c < |app.conns| && i < |s.tasks[t].slots|
  {
    var task := s.tasks[t];
    && s.sink[c].None?
    && (Published(task, i) ==> task.slots[i].mode.Sending? && task.slots[i].remote.None?)
    && (task.phase.Publishing? && task.phase.i == i && task.phase.stage == PUBLISH ==> task.slots[i].remote.None?)
    && (task.phase.Publishing? ==> task.phase.stage <= PUBLISH)
    && (task.phase.Scanning? && task.phase.i > i ==> task.phase.unresolved > 0)
    && (task.phase.Scanning? && task.phase.found ==> task.phase.i != i)
    && !task.phase.Active?
  }

  lemma HopelessPublish(app: App, s: State, u: nat, t: nat, c: nat, i: nat)
    requires Shaped(app, s) && Indexed(app) && u < |s.tasks| && s.tasks[u].phase.Publishing?
    requires t < |s.tasks| && c < |app.conns| && app.conns[c] == Connection(t, t) && i < |s.tasks[t].slots|
    requires app.index[t][i] == c
    requires Hopeless(app, s, t, c, i)
    ensures Shaped(app, PublishStep(app, s, u)) && Hopeless(app, PublishStep(app, s, u), t, c, i)
  {
    var task := s.tasks[u];
    if task.phase.i < |task.slots| { assert ListsOwn(app, u, task.phase.i); }
  }

  lemma HopelessScan(app: App, s: State, u: nat, t: nat, c: nat, i: nat)
    requires Shaped(app, s) && Indexed(app) && u < |s.tasks| && s.tasks[u].phase.Scanning?
    requires t < |s.tasks| && c < |app.conns| && app.conns[c] == Connection(t, t) && i < |s.tasks[t].slots|
    requires app.index[t][i] == c
    requires Hopeless(app, s, t, c, i)
    ensures Shaped(app, ScanStep(app, s, u)) && Hopeless(app, ScanStep(app, s, u), t, c, i)
  {
    var task := s.tasks[u];
    if task.phase.i < |task.slots| { assert ListsOwn(app, u, task.phase.i); }
  }

  lemma HopelessStep(app: App, s: State, st: Step, t: nat, c: nat, i: nat)
    requires Shaped(app, s) && Indexed(app) && Enabled(app, s, st)
    requires t < |s.tasks| && c < |app.conns| && app.conns[c] == Connection(t, t) && i < |s.tasks[t].slots|
    requires app.index[t][i] == c
    requires Hopeless(app, s, t, c, i)
    ensures Shaped(app, Next(app, s, st)) && Hopeless(app, Next(app, s, st), t, c, i)
  {
    hide H.Act, H.Land, H.CanAct, PublishStep, ScanStep;
    StepKeepsShape(app, s, st);
    if st.Begin? {
      if s.tasks[st.t].phase.Publishing? {
        HopelessPublish(app, s, st.t, t, c, i);
      } else {
        HopelessScan(app, s, st.t, t, c, i);
      }
    }
  }

  /** A task that is connected with itself never ends its start-up, in any run. */
  lemma {:induction false} SelfConnectionNeverResolves(app: App, s: State, steps: seq<Step>, t: nat, c: nat, i: nat)
    requires Shaped(app, s) && Indexed(app) && Run(app, s, steps)
    requires t < |s.tasks| && c < |app.conns| && app.conns[c] == Connection(t, t) && i < |s.tasks[t].slots|
    requires app.index[t][i] == c
    requires Hopeless(app, s, t, c, i)
    ensures var s' := Exec(app, s, steps);
            Shaped(app, s') && i < |s'.tasks[t].slots| && Hopeless(app, s', t, c, i) && !s'.tasks[t].phase.Active?
    decreases |steps|
  {
    if steps != [] {
      HopelessStep(app, s, steps[0], t, c, i);
      SelfConnectionNeverResolves(app, Next(app, s, steps[0]), steps[1..], t, c, i);
    }
  }

  lemma SelfConnectionTheorem(app: App, s0: State, steps: seq<Step>, t: nat, c: nat, i: nat)
    requires Indexed(app) && Initial(app, s0) && Run(app, s0, steps)
    requires t < |s0.tasks| && c < |app.conns| && app.conns[c] == Connection(t, t) && i < |s0.tasks[t].slots|
    requires app.index[t][i] == c
    ensures Shaped(app, Exec(app, s0, steps)) && !Exec(app, s0, steps).tasks[t].phase.Active?
  {
    SelfConnectionNeverResolves(app, s0, steps, t, c, i);
  }
}
