/** Start-up: every task clears its endpoints and publishes their addresses in the shared
    connection list, then polls the list for the addresses of its peers, and only then begins to
    communicate. The machine interleaves the start-up of any number of tasks with the calls of
    those that have already finished it. */
module Startup {
  import opened CopyPlan
  import H = Handshake

  datatype Option<T> = None | Some(value: T)

  /** The address of an endpoint: the task that owns it and its place in the task's array. */
  datatype Ref = Ref(task: nat, slot: nat)

  datatype Connection = Connection(source: nat, sink: nat)

  datatype Mode = Uninitialised | Sending | Receiving

  /** An application: each task's index into the list of connections, that list, the place of each
      connection in the index of its source and its sink, and the calls made over it. */
  datatype App = App(index: seq<seq<nat>>, conns: seq<Connection>, srcSlot: seq<nat>, snkSlot: seq<nat>,
    cfgs: seq<H.Config>)

  /** Every index lists exactly the connections of its task, once each. */
  predicate Indexed(app: App) {
    && |app.srcSlot| == |app.snkSlot| == |app.cfgs| == |app.conns|
    && (forall t, i :: 0 <= t < |app.index| && 0 <= i < |app.index[t]| ==> ListsOwn(app, t, i))
    && (forall c :: 0 <= c < |app.conns| ==> ListedByBoth(app, c))
  }

  predicate ListsOwn(app: App, t: nat, i: nat)
    requires |app.srcSlot| == |app.snkSlot| == |app.conns| && t < |app.index| && i < |app.index[t]|
  {
    var c := app.index[t][i];
    c < |app.conns| && ((app.conns[c].source == t && app.srcSlot[c] == i)
      || (app.conns[c].sink == t && app.snkSlot[c] == i))
  }

  predicate ListedByBoth(app: App, c: nat)
    requires |app.srcSlot| == |app.snkSlot| == |app.cfgs| == |app.conns| && c < |app.conns|
  {
    var conn := app.conns[c];
    && conn.source < |app.index| && conn.sink < |app.index|
    && app.srcSlot[c] < |app.index[conn.source]| && app.index[conn.source][app.srcSlot[c]] == c
    && app.snkSlot[c] < |app.index[conn.sink]| && app.index[conn.sink][app.snkSlot[c]] == c
    && app.cfgs[c].modulus >= 2
  }

  predicate NoSelfConnection(app: App) {
    forall c :: 0 <= c < |app.conns| ==> app.conns[c].source != app.conns[c].sink
  }

  datatype Slot = Slot(mode: Mode, conn: nat, remote: Option<Ref>, end: H.End)

  datatype Phase =
    | Publishing(i: nat, stage: nat)            // clearing and publishing the i-th endpoint
    | Scanning(i: nat, unresolved: nat, found: bool)  // looking for the i-th peer, or about to fetch its address
    | Active

  datatype Task = Task(phase: Phase, slots: seq<Slot>)

  /** `source` and `sink` are the endpoint pointers of the shared connection list. Each connection
      has a memory of its own for the buffers used over it. */
  datatype State = State(tasks: seq<Task>, source: seq<Option<Ref>>, sink: seq<Option<Ref>>, mems: seq<seq<Byte>>)

  /** The mode the publishing loop assigns. */
  function ModeOf(app: App, t: nat, c: nat): Mode
    requires c < |app.conns|
  {
    if app.conns[c].source == t then Sending
    else if app.conns[c].sink == t then Receiving
    else Uninitialised
  }

  function SideOf(m: Mode): H.Side {
    if m.Sending? then H.Tx else H.Rx
  }

  predicate Shaped(app: App, s: State) {
    && |s.tasks| == |app.index| && |s.source| == |s.sink| == |s.mems| == |app.conns|
    && forall t :: 0 <= t < |s.tasks| ==> |s.tasks[t].slots| == |app.index[t]|
  }

  // ----- the steps of start-up

  function Point(ptrs: seq<Option<Ref>>, c: nat, r: Ref): seq<Option<Ref>> {
    if c < |ptrs| then ptrs[c := Some(r)] else ptrs
  }

  function WithTask(s: State, t: nat, task: Task): State
    requires t < |s.tasks|
  {
    s.(tasks := s.tasks[t := task])
  }

  function WithSlot(s: State, r: Ref, slot: Slot): State
    requires r.task < |s.tasks| && r.slot < |s.tasks[r.task].slots|
  {
    WithTask(s, r.task, s.tasks[r.task].(slots := s.tasks[r.task].slots[r.slot := slot]))
  }

  function At(s: State, r: Ref): Slot
    requires r.task < |s.tasks| && r.slot < |s.tasks[r.task].slots|
  {
    s.tasks[r.task].slots[r.slot]
  }

  /** One write of the clearing part of the publishing loop. */
  function Clear(slot: Slot, stage: nat, c: nat): Slot {
    if stage == 0 then slot.(end := slot.end.(seqFromPeer := 0))
    else if stage == 1 then slot.(end := slot.end.(ctlFromPeer := 0))
    else if stage == 2 then slot.(end := slot.end.(addrFromPeer := 0))
    else slot.(end := slot.end.(sequence := 0), conn := c, remote := None)
  }

  const PUBLISH: nat := 4

  function PublishStep(app: App, s: State, t: nat): State
    requires Shaped(app, s) && Indexed(app) && t < |s.tasks| && s.tasks[t].phase.Publishing?
  {
    var task := s.tasks[t];
    var i, stage := task.phase.i, task.phase.stage;
    if i >= |task.slots| then WithTask(s, t, task.(phase := Scanning(0, 0, false)))
    else
      assert ListsOwn(app, t, i);
      var c := app.index[t][i];
      if stage < PUBLISH then
        WithTask(s, t, Task(Publishing(i, stage + 1), task.slots[i := Clear(task.slots[i], stage, c)]))
      else
        var mode := ModeOf(app, t, c);
        var s' := WithTask(s, t, Task(Publishing(i + 1, 0), task.slots[i := task.slots[i].(mode := mode)]));
        s'.(source := if mode.Sending? then Point(s.source, c, Ref(t, i)) else s.source,
            sink := if mode.Receiving? then Point(s.sink, c, Ref(t, i)) else s.sink)
  }

  /** The pointer a slot is waiting for. */
  function PeerPointer(s: State, slot: Slot, c: nat): Option<Ref>
    requires c < |s.source| == |s.sink|
  {
    if slot.mode.Sending? then s.sink[c] else if slot.mode.Receiving? then s.source[c] else None
  }

  function ScanStep(app: App, s: State, t: nat): State
    requires Shaped(app, s) && Indexed(app) && t < |s.tasks| && s.tasks[t].phase.Scanning?
  {
    var task := s.tasks[t];
    var i, un := task.phase.i, task.phase.unresolved;
    if i >= |task.slots| then
      WithTask(s, t, task.(phase := if un > 0 then Scanning(0, 0, false) else Active))
    else
      assert ListsOwn(app, t, i);
      var c, slot := app.index[t][i], task.slots[i];
      if task.phase.found then
        WithTask(s, t, Task(Scanning(i + 1, un, false), task.slots[i := slot.(remote := PeerPointer(s, slot, c))]))
      else if slot.mode.Uninitialised? || slot.remote.Some? then
        WithTask(s, t, task.(phase := Scanning(i + 1, un, false)))
      else if PeerPointer(s, slot, c).Some? then WithTask(s, t, task.(phase := Scanning(i, un, true)))
      else WithTask(s, t, task.(phase := Scanning(i + 1, un + 1, false)))
  }

  // ----- the whole system

  datatype Step =
    | Begin(t: nat)                             // one step of the start-up of task t
    | Call(r: Ref)                              // one step of a call that a started task makes at an endpoint
    | Arrive(r: Ref)                            // a write of the peer takes effect
    | Store(r: Ref, at: nat, b: Byte)           // a started task uses the memory between calls

  predicate Exists(s: State, r: Ref) {
    r.task < |s.tasks| && r.slot < |s.tasks[r.task].slots|
  }

  predicate Enabled(app: App, s: State, st: Step)
    requires Shaped(app, s) && Indexed(app)
  {
    match st
    case Begin(t) => t < |s.tasks| && !s.tasks[t].phase.Active?
    case Call(r) =>
      Exists(s, r) && s.tasks[r.task].phase.Active? && !At(s, r).mode.Uninitialised? && At(s, r).remote.Some?
      && Exists(s, At(s, r).remote.value)
      && At(s, r).conn < |app.conns| && H.CanAct(app.cfgs[At(s, r).conn], SideOf(At(s, r).mode), At(s, r).end)
    case Arrive(r) => Exists(s, r) && At(s, r).conn < |app.conns| && At(s, r).end.inbox != []
    case Store(r, at, _) =>
      Exists(s, r) && s.tasks[r.task].phase.Active? && !At(s, r).mode.Uninitialised? && At(s, r).remote.Some?
      && Exists(s, At(s, r).remote.value)
      && At(s, r).conn < |app.conns| && at < |s.mems[At(s, r).conn]| && At(s, r).end.pc.Idle?
      && !H.InUse(app.cfgs[At(s, r).conn], H.Peer(SideOf(At(s, r).mode)), At(s, At(s, r).remote.value).end, at)
  }

  /** The writes that a call issues go to the endpoint its slot points at. */
  function CallStep(app: App, s: State, r: Ref): State
    requires Shaped(app, s) && Indexed(app) && Enabled(app, s, Call(r))
  {
    var slot := At(s, r);
    assert ListedByBoth(app, slot.conn);
    var move := H.Act(app.cfgs[slot.conn], SideOf(slot.mode), slot.end, s.mems[slot.conn]);
    var s' := WithSlot(s, r, slot.(end := move.me));
    var to := slot.remote.value;
    var peer := At(s', to);
    WithSlot(s', to, peer.(end := peer.end.(inbox := peer.end.inbox + move.out)))
  }

  function ArriveStep(s: State, r: Ref): State
    requires Exists(s, r) && At(s, r).conn < |s.mems| && At(s, r).end.inbox != []
  {
    var slot := At(s, r);
    var s' := WithSlot(s, r, slot.(end := H.Land(slot.end)));
    s'.(mems := s.mems[slot.conn := H.LandInMemory(s.mems[slot.conn], slot.end.inbox[0])])
  }

  function Next(app: App, s: State, st: Step): State
    requires Shaped(app, s) && Indexed(app) && Enabled(app, s, st)
  {
    match st
    case Begin(t) => if s.tasks[t].phase.Publishing? then PublishStep(app, s, t) else ScanStep(app, s, t)
    case Call(r) => CallStep(app, s, r)
    case Arrive(r) => ArriveStep(s, r)
    case Store(r, at, b) => s.(mems := s.mems[At(s, r).conn := s.mems[At(s, r).conn][at := b]])
  }

  /** Only the four words of an endpoint may hold anything before it is cleared. */
  predicate Untouched(e: H.End) {
    e.(seqFromPeer := 0, ctlFromPeer := 0, addrFromPeer := 0, sequence := 0) == H.FRESH_END
  }

  /** Tasks about to begin: nothing published, arbitrary contents in the endpoint words. */
  predicate Initial(app: App, s: State) {
    && Shaped(app, s)
    && (forall t :: 0 <= t < |s.tasks| ==> s.tasks[t].phase == Publishing(0, 0))
    && (forall t, i :: 0 <= t < |s.tasks| && 0 <= i < |s.tasks[t].slots| ==> Untouched(s.tasks[t].slots[i].end))
    && (forall c :: 0 <= c < |app.conns| ==> s.source[c].None? && s.sink[c].None?)
  }

  lemma StepKeepsShape(app: App, s: State, st: Step)
    requires Shaped(app, s) && Indexed(app) && Enabled(app, s, st)
    ensures Shaped(app, Next(app, s, st))
  {
  }

  predicate Run(app: App, s: State, steps: seq<Step>)
    requires Shaped(app, s) && Indexed(app)
    decreases |steps|
  {
    steps == [] ||
    (Enabled(app, s, steps[0]) &&
     (StepKeepsShape(app, s, steps[0]); Run(app, Next(app, s, steps[0]), steps[1..])))
  }

  function Exec(app: App, s: State, steps: seq<Step>): State
    requires Shaped(app, s) && Indexed(app) && Run(app, s, steps)
    decreases |steps|
  {
    if steps == [] then s
    else
      StepKeepsShape(app, s, steps[0]);
      Exec(app, Next(app, s, steps[0]), steps[1..])
  }
}
