/** What start-up achieves: reciprocal endpoints, and a clean start for the handshake of every
    connection, in every interleaving. */
module StartupResults {
  import opened CopyPlan
  import opened Startup
  import H = Handshake

  // ----- the invariant

  predicate Cleared(task: Task, i: nat) {
    !task.phase.Publishing? || i < task.phase.i || (i == task.phase.i && task.phase.stage == PUBLISH)
  }

  predicate Published(task: Task, i: nat) {
    !task.phase.Publishing? || i < task.phase.i
  }

  /** What has been cleared of an endpoint that is not cleared yet. */
  predicate PartlyCleared(e: H.End, stage: nat) {
    (stage > 0 ==> e.seqFromPeer == 0) && (stage > 1 ==> e.ctlFromPeer == 0) && (stage > 2 ==> e.addrFromPeer == 0)
  }

  predicate SlotOk(app: App, s: State, t: nat, i: nat)
    requires Shaped(app, s) && Indexed(app) && t < |s.tasks| && i < |s.tasks[t].slots|
  {
    assert ListsOwn(app, t, i);
    var task, c := s.tasks[t], app.index[t][i];
    var slot := task.slots[i];
    && (Published(task, i) ==>
          && slot.mode == ModeOf(app, t, c) && slot.conn == c
          && (slot.mode.Sending? ==> s.source[c] == Some(Ref(t, i)))
          && (slot.mode.Receiving? ==> s.sink[c] == Some(Ref(t, i)))
          && (slot.remote.Some? ==> slot.remote == PeerPointer(s, slot, c)))
    && (Cleared(task, i) && !Published(task, i) ==> slot.end == H.FRESH_END && slot.remote.None? && slot.conn == c)
    && (!Cleared(task, i) ==> Untouched(slot.end))
    && (!Cleared(task, i) && i == task.phase.i ==> PartlyCleared(slot.end, task.phase.stage))
  }

  /** A published pointer leads to the endpoint of the right task, and that task has published it. */
  predicate PointersOk(app: App, s: State, c: nat)
    requires Shaped(app, s) && Indexed(app) && c < |app.conns|
  {
    assert ListedByBoth(app, c);
    var conn := app.conns[c];
    && (s.source[c].Some? ==>
          s.source[c].value == Ref(conn.source, app.srcSlot[c]) && Published(s.tasks[conn.source], app.srcSlot[c]))
    && (s.sink[c].Some? ==>
          s.sink[c].value == Ref(conn.sink, app.snkSlot[c]) && Published(s.tasks[conn.sink], app.snkSlot[c]))
  }

  function Unresolved(slots: seq<Slot>): nat {
    if slots == [] then 0
    else Unresolved(slots[..|slots| - 1]) + (if slots[|slots| - 1].remote.None? then 1 else 0)
  }

  predicate PhaseOk(app: App, s: State, t: nat)
    requires Shaped(app, s) && Indexed(app) && t < |s.tasks|
  {
    var task := s.tasks[t];
    match task.phase
    case Publishing(i, stage) => i <= |task.slots| && stage <= PUBLISH && (i == |task.slots| ==> stage == 0)
    case Scanning(i, un, found) =>
      && i <= |task.slots| && un == Unresolved(task.slots[..i])
      && (found ==> i < |task.slots| && PeerFound(app, s, t, i))
    case Active => forall i :: 0 <= i < |task.slots| ==> task.slots[i].remote.Some?
  }

  predicate PeerFound(app: App, s: State, t: nat, i: nat)
    requires Shaped(app, s) && Indexed(app) && t < |s.tasks| && i < |s.tasks[t].slots|
  {
    assert ListsOwn(app, t, i);
    PeerPointer(s, s.tasks[t].slots[i], app.index[t][i]).Some?
  }

  predicate Inv(app: App, s: State)
    requires Indexed(app)
  {
    && Shaped(app, s) && NoSelfConnection(app)
    && (forall t, i :: 0 <= t < |s.tasks| && 0 <= i < |s.tasks[t].slots| ==> SlotOk(app, s, t, i))
    && (forall c :: 0 <= c < |app.conns| ==> PointersOk(app, s, c))
    && (forall t :: 0 <= t < |s.tasks| ==> PhaseOk(app, s, t))
  }

  lemma InitialInv(app: App, s: State)
    requires Indexed(app) && NoSelfConnection(app) && Initial(app, s)
    ensures Inv(app, s)
  {
  }

  // ----- one step

  /** In its task's index a connection has one place. */
  lemma OnePlace(app: App, t: nat, i: nat)
    requires Indexed(app) && NoSelfConnection(app) && t < |app.index| && i < |app.index[t]|
    ensures var c := app.index[t][i];
            c < |app.conns| && (ModeOf(app, t, c).Sending? <==> app.conns[c].source == t)
            && (ModeOf(app, t, c).Receiving? <==> app.conns[c].sink == t) && !ModeOf(app, t, c).Uninitialised?
            && (app.conns[c].source == t ==> app.srcSlot[c] == i) && (app.conns[c].sink == t ==> app.snkSlot[c] == i)
  {
    assert ListsOwn(app, t, i);
  }

  /** Pointers are never withdrawn or changed, and other tasks keep what they have. */
  predicate Grows(s: State, s': State) {
    && |s'.source| == |s.source| && |s'.sink| == |s.sink|
    && (forall c :: 0 <= c < |s.source| && s.source[c].Some? ==> s'.source[c] == s.source[c])
    && (forall c :: 0 <= c < |s.sink| && s.sink[c].Some? ==> s'.sink[c] == s.sink[c])
  }

  lemma OtherSlotOk(app: App, s: State, s': State, t: nat, i: nat)
    requires Indexed(app) && Shaped(app, s) && Shaped(app, s') && Grows(s, s')
    requires t < |s.tasks| && i < |s.tasks[t].slots| && s'.tasks[t] == s.tasks[t] && SlotOk(app, s, t, i)
    ensures SlotOk(app, s', t, i)
  {
    assert ListsOwn(app, t, i);
  }

  lemma OtherPhaseOk(app: App, s: State, s': State, t: nat)
    requires Indexed(app) && Shaped(app, s) && Shaped(app, s') && Grows(s, s')
    requires t < |s.tasks| && s'.tasks[t] == s.tasks[t] && PhaseOk(app, s, t)
    ensures PhaseOk(app, s', t)
  {
    var task := s.tasks[t];
    if task.phase.Scanning? && task.phase.found { assert ListsOwn(app, t, task.phase.i); }
  }

  lemma InvParts(app: App, s: State, t: nat, i: nat)
    requires Indexed(app) && Inv(app, s) && t < |s.tasks| && i < |s.tasks[t].slots|
    ensures Shaped(app, s) && NoSelfConnection(app) && SlotOk(app, s, t, i) && PhaseOk(app, s, t)
  {
  }

  lemma PublishSlots(app: App, s: State, t: nat, i: nat)
    requires Indexed(app) && Inv(app, s) && t < |s.tasks| && s.tasks[t].phase.Publishing? && i < |s.tasks[t].slots|
    ensures Shaped(app, PublishStep(app, s, t)) && SlotOk(app, PublishStep(app, s, t), t, i)
  {
    hide Inv;
    InvParts(app, s, t, i);
    OnePlace(app, t, i);
    if s.tasks[t].phase.i < |s.tasks[t].slots| {
      OnePlace(app, t, s.tasks[t].phase.i);
      InvParts(app, s, t, s.tasks[t].phase.i);
    }
  }

  lemma PublishPointers(app: App, s: State, t: nat, c: nat)
    requires Indexed(app) && Inv(app, s) && t < |s.tasks| && s.tasks[t].phase.Publishing? && c < |app.conns|
    ensures Shaped(app, PublishStep(app, s, t)) && PointersOk(app, PublishStep(app, s, t), c)
  {
    assert PointersOk(app, s, c) && ListedByBoth(app, c) && PhaseOk(app, s, t);
    if s.tasks[t].phase.i < |s.tasks[t].slots| { OnePlace(app, t, s.tasks[t].phase.i); }
  }

  lemma PublishGrows(app: App, s: State, t: nat)
    requires Indexed(app) && Inv(app, s) && t < |s.tasks| && s.tasks[t].phase.Publishing?
    ensures Grows(s, PublishStep(app, s, t))
  {
    var s', i := PublishStep(app, s, t), s.tasks[t].phase.i;
    if i < |s.tasks[t].slots| {
      OnePlace(app, t, i);
      var c := app.index[t][i];
      assert PointersOk(app, s, c);
    }
  }

  lemma PublishKeepsInv(app: App, s: State, t: nat)
    requires Indexed(app) && Inv(app, s) && t < |s.tasks| && s.tasks[t].phase.Publishing?
    ensures Inv(app, PublishStep(app, s, t))
  {
    var s' := PublishStep(app, s, t);
    PublishGrows(app, s, t);
    forall u, i | 0 <= u < |s'.tasks| && 0 <= i < |s'.tasks[u].slots| ensures SlotOk(app, s', u, i) {
      if u == t { PublishSlots(app, s, t, i); } else { OtherSlotOk(app, s, s', u, i); }
    }
    forall c | 0 <= c < |app.conns| ensures PointersOk(app, s', c) { PublishPointers(app, s, t, c); }
    forall u | 0 <= u < |s'.tasks| ensures PhaseOk(app, s', u) {
      if u != t { OtherPhaseOk(app, s, s', u); } else { PublishPhase(app, s, t); }
    }
  }

  lemma PublishPhase(app: App, s: State, t: nat)
    requires Indexed(app) && Inv(app, s) && t < |s.tasks| && s.tasks[t].phase.Publishing?
    ensures Shaped(app, PublishStep(app, s, t)) && PhaseOk(app, PublishStep(app, s, t), t)
  {
    assert PhaseOk(app, s, t);
  }

  // ----- scanning

  lemma UnresolvedNext(slots: seq<Slot>, i: nat)
    requires i < |slots|
    ensures Unresolved(slots[..i + 1]) == Unresolved(slots[..i]) + (if slots[i].remote.None? then 1 else 0)
  {
    assert slots[..i + 1][..i] == slots[..i];
  }

  lemma {:induction false} AllResolved(slots: seq<Slot>, k: nat)
    requires Unresolved(slots) == 0 && k < |slots|
    ensures slots[k].remote.Some?
    decreases |slots|
  {
    if k < |slots| - 1 { AllResolved(slots[..|slots| - 1], k); }
  }

  lemma ScanSlots(app: App, s: State, t: nat, i: nat)
    requires Indexed(app) && Inv(app, s) && t < |s.tasks| && s.tasks[t].phase.Scanning? && i < |s.tasks[t].slots|
    ensures Shaped(app, ScanStep(app, s, t)) && SlotOk(app, ScanStep(app, s, t), t, i)
  {
    assert SlotOk(app, s, t, i);
    OnePlace(app, t, i);
  }

  lemma ScanPhase(app: App, s: State, t: nat)
    requires Indexed(app) && Inv(app, s) && t < |s.tasks| && s.tasks[t].phase.Scanning?
    ensures Shaped(app, ScanStep(app, s, t)) && PhaseOk(app, ScanStep(app, s, t), t)
  {
    var task := s.tasks[t];
    var i := task.phase.i;
    var s' := ScanStep(app, s, t);
    assert PhaseOk(app, s, t);
    if i < |task.slots| {
      OnePlace(app, t, i);
      assert SlotOk(app, s, t, i);
      UnresolvedNext(task.slots, i);
      var slots' := s'.tasks[t].slots;
      UnresolvedNext(slots', i);
      assert slots'[..i] == task.slots[..i];
    } else {
      assert task.slots[..i] == task.slots;
      if task.phase.unresolved == 0 {
        forall k | 0 <= k < |task.slots| ensures task.slots[k].remote.Some? { AllResolved(task.slots, k); }
      }
    }
  }

  lemma ScanKeepsInv(app: App, s: State, t: nat)
    requires Indexed(app) && Inv(app, s) && t < |s.tasks| && s.tasks[t].phase.Scanning?
    ensures Inv(app, ScanStep(app, s, t))
  {
    var s' := ScanStep(app, s, t);
    forall u, i | 0 <= u < |s'.tasks| && 0 <= i < |s'.tasks[u].slots| ensures SlotOk(app, s', u, i) {
      if u == t { ScanSlots(app, s, t, i); } else { OtherSlotOk(app, s, s', u, i); }
    }
    forall c | 0 <= c < |app.conns| ensures PointersOk(app, s', c) {
      assert PointersOk(app, s, c) && ListedByBoth(app, c);
    }
    forall u | 0 <= u < |s'.tasks| ensures PhaseOk(app, s', u) {
      if u != t { OtherPhaseOk(app, s, s', u); } else { ScanPhase(app, s, t); }
    }
  }

  // ----- communication

  /** Where a resolved endpoint's pointer leads: to the other end of the same connection, which its
      owner has cleared and published. */
  lemma Reciprocal(app: App, s: State, r: Ref)
    requires Indexed(app) && Inv(app, s) && Startup.Exists(s, r) && Published(s.tasks[r.task], r.slot)
    requires At(s, r).remote.Some?
    ensures var slot, to := At(s, r), At(s, r).remote.value;
            && slot.conn < |app.conns| && slot.conn == app.index[r.task][r.slot]
            && ListedByBoth(app, slot.conn)
            && Startup.Exists(s, to) && Published(s.tasks[to.task], to.slot) && At(s, to).conn == slot.conn
            && (slot.mode.Sending? || slot.mode.Receiving?)
            && (slot.mode.Sending? ==>
               At(s, to).mode.Receiving? && r == SourceOf(app, slot.conn) && to == SinkOf(app, slot.conn))
            && (slot.mode.Receiving? ==>
               At(s, to).mode.Sending? && r == SinkOf(app, slot.conn) && to == SourceOf(app, slot.conn))
  {
    assert SlotOk(app, s, r.task, r.slot);
    OnePlace(app, r.task, r.slot);
    var c := app.index[r.task][r.slot];
    assert PointersOk(app, s, c) && ListedByBoth(app, c);
    var to := At(s, r).remote.value;
    assert SlotOk(app, s, to.task, to.slot);
    OnePlace(app, to.task, to.slot);
  }

  function SourceOf(app: App, c: nat): Ref
    requires c < |app.conns| && |app.srcSlot| == |app.conns|
  {
    Ref(app.conns[c].source, app.srcSlot[c])
  }

  function SinkOf(app: App, c: nat): Ref
    requires c < |app.conns| && |app.snkSlot| == |app.conns|
  {
    Ref(app.conns[c].sink, app.snkSlot[c])
  }

  /** Nothing but the state of one published endpoint, and the memories, has changed. */
  predicate OneEndChanged(s: State, s': State, r: Ref, e: H.End)
    requires Startup.Exists(s, r)
  {
    && s'.tasks == WithSlot(s, r, At(s, r).(end := e)).tasks && s'.source == s.source && s'.sink == s.sink
    && |s'.mems| == |s.mems| && Published(s.tasks[r.task], r.slot)
  }

  lemma EndChangeKeepsSlot(app: App, s: State, s': State, r: Ref, e: H.End, t: nat, i: nat)
    requires Indexed(app) && Inv(app, s) && Startup.Exists(s, r) && OneEndChanged(s, s', r, e)
    requires t < |s.tasks| && i < |s.tasks[t].slots|
    ensures Shaped(app, s') && SlotOk(app, s', t, i)
  {
    assert SlotOk(app, s, t, i);
  }

  lemma {:induction false} UnresolvedSame(a: seq<Slot>, b: seq<Slot>)
    requires |a| == |b| && forall k :: 0 <= k < |a| ==> a[k].remote == b[k].remote
    ensures Unresolved(a) == Unresolved(b)
    decreases |a|
  {
    if a != [] { UnresolvedSame(a[..|a| - 1], b[..|b| - 1]); }
  }

  lemma EndChangeKeepsPhase(app: App, s: State, s': State, r: Ref, e: H.End, t: nat)
    requires Indexed(app) && Inv(app, s) && Startup.Exists(s, r) && OneEndChanged(s, s', r, e)
    requires t < |s.tasks|
    ensures Shaped(app, s') && PhaseOk(app, s', t)
  {
    assert PhaseOk(app, s, t);
    var task := s.tasks[t];
    if task.phase.Scanning? {
      var i := task.phase.i;
      UnresolvedSame(task.slots[..i], s'.tasks[t].slots[..i]);
      if task.phase.found { assert ListsOwn(app, t, i); assert PeerFound(app, s, t, i); }
    }
  }

  lemma EndChangeKeepsInv(app: App, s: State, s': State, r: Ref, e: H.End)
    requires Indexed(app) && Inv(app, s) && Startup.Exists(s, r) && OneEndChanged(s, s', r, e)
    ensures Inv(app, s')
  {
    assert Shaped(app, s');
    forall t, i | 0 <= t < |s'.tasks| && 0 <= i < |s'.tasks[t].slots| ensures SlotOk(app, s', t, i) {
      EndChangeKeepsSlot(app, s, s', r, e, t, i);
    }
    forall c | 0 <= c < |app.conns| ensures PointersOk(app, s', c) {
      assert PointersOk(app, s, c) && ListedByBoth(app, c);
    }
    forall t | 0 <= t < |s'.tasks| ensures PhaseOk(app, s', t) { EndChangeKeepsPhase(app, s, s', r, e, t); }
  }

  lemma CallKeepsInv(app: App, s: State, r: Ref)
    requires Indexed(app) && Inv(app, s) && Enabled(app, s, Call(r))
    ensures Inv(app, CallStep(app, s, r))
  {
    Reciprocal(app, s, r);
    var slot := At(s, r);
    var move := H.Act(app.cfgs[slot.conn], SideOf(slot.mode), slot.end, s.mems[slot.conn]);
    var s1 := WithSlot(s, r, slot.(end := move.me));
    EndChangeKeepsInv(app, s, s1, r, move.me);
    var to := slot.remote.value;
    var e := At(s1, to).end.(inbox := At(s1, to).end.inbox + move.out);
    EndChangeKeepsInv(app, s1, CallStep(app, s, r), to, e);
  }

  /** A write can arrive only at an endpoint that has been cleared and published. */
  lemma ArrivesAfterClearing(app: App, s: State, r: Ref)
    requires Indexed(app) && Inv(app, s) && Startup.Exists(s, r) && At(s, r).end.inbox != []
    ensures Published(s.tasks[r.task], r.slot)
    ensures At(s, r).conn == app.index[r.task][r.slot] && At(s, r).conn < |app.conns|
  {
    assert SlotOk(app, s, r.task, r.slot);
    OnePlace(app, r.task, r.slot);
  }

  lemma SameSlot(s: State, r: Ref)
    requires Startup.Exists(s, r)
    ensures WithSlot(s, r, At(s, r).(end := At(s, r).end)) == s
  {
    var task := s.tasks[r.task];
    assert task.slots[r.slot := At(s, r)] == task.slots;
    assert s.tasks[r.task := task] == s.tasks;
  }

  lemma StepKeepsInv(app: App, s: State, st: Step)
    requires Indexed(app) && Inv(app, s) && Enabled(app, s, st)
    ensures Inv(app, Next(app, s, st))
  {
    match st
    case Begin(t) => if s.tasks[t].phase.Publishing? { PublishKeepsInv(app, s, t); } else { ScanKeepsInv(app, s, t); }
    case Call(r) => CallKeepsInv(app, s, r);
    case Arrive(r) =>
      ArrivesAfterClearing(app, s, r);
      EndChangeKeepsInv(app, s, ArriveStep(s, r), r, H.Land(At(s, r).end));
    case Store(r, at, b) =>
      assert SlotOk(app, s, r.task, r.slot);
      var s' := Next(app, s, st);
      SameSlot(s, r);
      EndChangeKeepsInv(app, s, s', r, At(s, r).end);
  }

  lemma {:induction false} RunKeepsInv(app: App, s: State, steps: seq<Step>)
    requires Indexed(app) && Inv(app, s) && Run(app, s, steps)
    ensures Inv(app, Exec(app, s, steps))
    decreases |steps|
  {
    if steps != [] {
      StepKeepsInv(app, s, steps[0]);
      RunKeepsInv(app, Next(app, s, steps[0]), steps[1..]);
    }
  }

  /** When two connected tasks have both left start-up, their endpoints for the connection point at
      each other, have opposite modes and carry the connection's id. */
  lemma ReciprocityTheorem(app: App, s0: State, steps: seq<Step>, c: nat)
    requires Indexed(app) && NoSelfConnection(app) && Initial(app, s0) && Run(app, s0, steps) && c < |app.conns|
    requires var s := Exec(app, s0, steps);
             app.conns[c].source < |s.tasks| && app.conns[c].sink < |s.tasks|
             && s.tasks[app.conns[c].source].phase.Active? && s.tasks[app.conns[c].sink].phase.Active?
    ensures var s := Exec(app, s0, steps);
            var a, b := SourceOf(app, c), SinkOf(app, c);
            && Startup.Exists(s, a) && Startup.Exists(s, b)
            && At(s, a).remote == Some(b) && At(s, b).remote == Some(a)
            && At(s, a).mode == Sending && At(s, b).mode == Receiving
            && At(s, a).conn == At(s, b).conn == c
  {
    InitialInv(app, s0);
    RunKeepsInv(app, s0, steps);
    var s := Exec(app, s0, steps);
    var a, b := SourceOf(app, c), SinkOf(app, c);
    assert ListedByBoth(app, c) && PhaseOk(app, s, a.task) && PhaseOk(app, s, b.task);
    Reciprocal(app, s, a);
    Reciprocal(app, s, b);
    assert SlotOk(app, s, a.task, a.slot) && SlotOk(app, s, b.task, b.slot);
    OnePlace(app, a.task, a.slot);
    OnePlace(app, b.task, b.slot);
  }
}
