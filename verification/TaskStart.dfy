/** The start-up of one task as its program runs it: a loop that clears the endpoints and publishes
    their addresses, then scans of the shared list until every peer has been found. What other tasks
    publish before each statement is given beforehand. Every step of these methods is the step that the
    start-up machine takes for this task, whatever state the other tasks are in; and every run of that
    machine is, for this task, such a behaviour. */
module TaskStart {
  import opened Startup

  /** Another task's endpoint appears in the list. */
  datatype Publication = Publication(atSink: bool, conn: nat, ref: Ref)

  function Published(s: State, p: Publication): State {
    if p.atSink then s.(sink := Point(s.sink, p.conn, p.ref)) else s.(source := Point(s.source, p.conn, p.ref))
  }

  predicate Own(app: App, t: nat, a: State, b: State)
    requires Indexed(app)
  {
    Shaped(app, a) && Enabled(app, a, Begin(t)) && b == Next(app, a, Begin(t))
  }

  ghost predicate Foreign(a: State, b: State) {
    exists p :: b == Published(a, p)
  }

  predicate SamePointers(a: State, b: State) {
    a.source == b.source && a.sink == b.sink
  }

  /** What a step of another task's start-up means to this one: an endpoint appears, or nothing. */
  lemma OthersOnlyPublish(app: App, s: State, t: nat, other: nat)
    requires Indexed(app) && Shaped(app, s) && Enabled(app, s, Begin(other)) && other != t && t < |s.tasks|
    ensures Next(app, s, Begin(other)).tasks[t] == s.tasks[t]
    ensures SamePointers(Next(app, s, Begin(other)), s)
            || exists p :: SamePointers(Next(app, s, Begin(other)), Published(s, p))
  {
    var task, next := s.tasks[other], Next(app, s, Begin(other));
    if task.phase.Publishing? && task.phase.i < |task.slots| && task.phase.stage >= PUBLISH {
      assert ListsOwn(app, other, task.phase.i);
      var c := app.index[other][task.phase.i];
      var mode := ModeOf(app, other, c);
      if !mode.Uninitialised? {
        assert SamePointers(next, Published(s, Publication(mode.Receiving?, c, Ref(other, task.phase.i))));
      }
    }
  }

  /** What this task's program can see of the system. */
  predicate SamePart(a: State, b: State, t: nat) {
    SamePointers(a, b) && t < |a.tasks| && t < |b.tasks| && a.tasks[t] == b.tasks[t]
  }

  /** An own step is a step of the start-up machine, and does the same, in every state that looks the same
      to this task. */
  lemma OwnStepIsStep(app: App, t: nat, a: State, b: State, s: State)
    requires Indexed(app) && Own(app, t, a, b) && Shaped(app, s) && SamePart(a, s, t)
    ensures Enabled(app, s, Begin(t)) && SamePart(b, Next(app, s, Begin(t)), t)
  {
  }

  ghost predicate Behaviour(app: App, t: nat, trace: seq<State>)
    requires Indexed(app)
  {
    trace != [] && forall i :: 0 <= i < |trace| - 1 ==>
      Own(app, t, trace[i], trace[i + 1]) || Foreign(trace[i], trace[i + 1])
  }

  lemma BehaviourSnoc(app: App, t: nat, trace: seq<State>, b: State)
    requires Indexed(app) && Behaviour(app, t, trace)
    requires Own(app, t, trace[|trace| - 1], b) || Foreign(trace[|trace| - 1], b)
    ensures Behaviour(app, t, trace + [b])
  {
    hide Own, Foreign;
  }

  /** The start-up of all tasks, as this task meets it, is such a behaviour. */
  lemma {:induction false} RunIsBehaviour(app: App, t: nat, s: State, steps: seq<Step>, trace: seq<State>)
    returns (trace': seq<State>)
    requires Indexed(app) && Shaped(app, s) && Run(app, s, steps) && forall i :: 0 <= i < |steps| ==> steps[i].Begin?
    requires trace != [] && Behaviour(app, t, trace)
    requires Shaped(app, trace[|trace| - 1]) && SamePart(s, trace[|trace| - 1], t)
    ensures trace <= trace' && Behaviour(app, t, trace')
    ensures SamePart(Exec(app, s, steps), trace'[|trace'| - 1], t)
    decreases |steps|
  {
    hide Next, Own, Foreign, Behaviour, Indexed;
    trace' := trace;
    if steps != [] {
      var st, a := steps[0], trace[|trace| - 1];
      StepKeepsShape(app, s, st);
      var s' := Next(app, s, st);
      if st.t == t {
        var b := OwnStepBack(app, t, s, a);
        BehaviourSnoc(app, t, trace, b);
        trace' := RunIsBehaviour(app, t, s', steps[1..], trace + [b]);
      } else {
        OthersOnlyPublish(app, s, t, st.t);
        if SamePointers(s', s) {
          trace' := RunIsBehaviour(app, t, s', steps[1..], trace);
        } else {
          var p :| SamePointers(s', Published(s, p));
          var b := Published(a, p);
          assert Foreign(a, b) by { PublishedForeign(a, p); }
          BehaviourSnoc(app, t, trace, b);
          trace' := RunIsBehaviour(app, t, s', steps[1..], trace + [b]);
        }
      }
    }
  }

  lemma PublishedForeign(a: State, p: Publication)
    ensures Foreign(a, Published(a, p))
  {
  }

  lemma OwnStepBack(app: App, t: nat, s: State, a: State) returns (b: State)
    requires Indexed(app) && Shaped(app, s) && Enabled(app, s, Begin(t)) && Shaped(app, a) && SamePart(s, a, t)
    ensures Own(app, t, a, b) && Shaped(app, b) && SamePart(Next(app, s, Begin(t)), b, t)
  {
    OwnStepIsStep(app, t, s, Next(app, s, Begin(t)), a);
    b := Next(app, a, Begin(t));
    StepKeepsShape(app, a, Begin(t));
  }

  class Task {
    const app: App
    const id: nat
    var slots: seq<Slot>
    var source: seq<Option<Ref>>
    var sink: seq<Option<Ref>>
    var others: seq<seq<Publication>>
    ghost var state: State
    ghost var trace: seq<State>

    ghost predicate Valid()
      reads this
    {
      && Indexed(app) && Shaped(app, state) && id < |state.tasks|
      && state.tasks[id].slots == slots && state.source == source && state.sink == sink
      && Behaviour(app, id, trace) && trace[|trace| - 1] == state
    }

    ghost predicate At(phase: Phase)
      reads this
    {
      Valid() && state.tasks[id].phase == phase
    }

    constructor (app: App, id: nat, s: State, others: seq<seq<Publication>>)
      requires Indexed(app) && Shaped(app, s) && id < |s.tasks|
      ensures Valid() && state == s && trace == [s] && this.app == app && this.id == id
    {
      this.app, this.id, this.others := app, id, others;
      slots, source, sink := s.tasks[id].slots, s.source, s.sink;
      state, trace := s, [s];
    }

    /** Other tasks publish. */
    method Appear()
      requires Valid()
      modifies `source, `sink, `others, `state, `trace
      ensures Valid() && old(trace) <= trace && state.tasks == old(state.tasks)
      ensures forall c :: 0 <= c < |source| ==> old(source[c]).Some? ==> source[c].Some?
      ensures forall c :: 0 <= c < |sink| ==> old(sink[c]).Some? ==> sink[c].Some?
      ensures |others| == if old(others) == [] then 0 else old(|others|) - 1
      ensures old(others) == [] ==> source == old(source) && sink == old(sink)
    {
      hide Behaviour, Own;
      var ps := [];
      if others != [] {
        ps, others := others[0], others[1..];
      }
      var i := 0;
      while i < |ps|
        invariant 0 <= i <= |ps| && Valid() && old(trace) <= trace && state.tasks == old(state.tasks)
        invariant forall c :: 0 <= c < |source| ==> old(source[c]).Some? ==> source[c].Some?
        invariant forall c :: 0 <= c < |sink| ==> old(sink[c]).Some? ==> sink[c].Some?
        invariant |others| == if old(others) == [] then 0 else old(|others|) - 1
        invariant ps == [] ==> source == old(source) && sink == old(sink)
      {
        var p := ps[i];
        if p.atSink {
          sink := Point(sink, p.conn, p.ref);
        } else {
          source := Point(source, p.conn, p.ref);
        }
        ghost var next := Published(state, p);
        BehaviourSnoc(app, id, trace, next);
        state, trace := next, trace + [next];
        i := i + 1;
      }
    }

    /** One statement of this task. */
    method Do(newSlots: seq<Slot>, newSource: seq<Option<Ref>>, newSink: seq<Option<Ref>>)
      requires Valid() && !state.tasks[id].phase.Active?
      requires var next := Next(app, state, Begin(id));
               next.tasks[id].slots == newSlots && next.source == newSource && next.sink == newSink
      modifies `slots, `source, `sink, `state, `trace
      ensures Valid() && old(trace) <= trace && state == Next(app, old(state), Begin(id))
    {
      hide Behaviour, Next;
      ghost var next := Next(app, state, Begin(id));
      StepKeepsShape(app, state, Begin(id));
      BehaviourSnoc(app, id, trace, next);
      slots, source, sink := newSlots, newSource, newSink;
      state, trace := next, trace + [next];
    }

    /** Clear one endpoint, word by word. */
    method ClearSlot(i: nat, c: nat)
      requires At(Publishing(i, 0)) && i < |slots| && c == app.index[id][i]
      modifies `slots, `source, `sink, `others, `state, `trace
      ensures old(trace) <= trace && At(Publishing(i, PUBLISH)) && |slots| == old(|slots|)
    {
      hide Behaviour, Indexed;
      Appear();
      Do(slots[i := slots[i].(end := slots[i].end.(seqFromPeer := 0))], source, sink);
      Appear();
      Do(slots[i := slots[i].(end := slots[i].end.(ctlFromPeer := 0))], source, sink);
      Appear();
      Do(slots[i := slots[i].(end := slots[i].end.(addrFromPeer := 0))], source, sink);
      Appear();
      Do(slots[i := slots[i].(end := slots[i].end.(sequence := 0), conn := c, remote := None)], source, sink);
    }

    /** Give the endpoint its mode and put its address into the list. */
    method PublishSlot(i: nat, c: nat)
      requires At(Publishing(i, PUBLISH)) && i < |slots| && c == app.index[id][i] && c < |app.conns|
      modifies `slots, `source, `sink, `others, `state, `trace
      ensures old(trace) <= trace && At(Publishing(i + 1, 0)) && |slots| == old(|slots|)
    {
      hide Behaviour, Indexed;
      Appear();
      var conn := app.conns[c];
      if conn.source == id {
        Do(slots[i := slots[i].(mode := Sending)], source[c := Some(Ref(id, i))], sink);
      } else if conn.sink == id {
        Do(slots[i := slots[i].(mode := Receiving)], source, sink[c := Some(Ref(id, i))]);
      } else {
        Do(slots[i := slots[i].(mode := Uninitialised)], source, sink);
      }
    }

    method Publish()
      requires At(Publishing(0, 0))
      modifies `slots, `source, `sink, `others, `state, `trace
      ensures old(trace) <= trace && At(Scanning(0, 0, false))
    {
      hide Behaviour;
      var i := 0;
      while i < |slots|
        invariant i <= |slots| && old(trace) <= trace && At(Publishing(i, 0)) && |slots| == old(|slots|)
      {
        assert ListsOwn(app, id, i);
        ClearSlot(i, app.index[id][i]);
        PublishSlot(i, app.index[id][i]);
        i := i + 1;
      }
      Do(slots, source, sink);
    }

    /** The peer is there: fetch its address. */
    method FetchPeer(i: nat, unresolved: nat, c: nat)
      requires At(Scanning(i, unresolved, true)) && i < |slots| && c == app.index[id][i] && c < |app.conns|
      requires !slots[i].mode.Uninitialised?
      modifies `slots, `source, `sink, `others, `state, `trace
      ensures old(trace) <= trace && At(Scanning(i + 1, unresolved, false))
      ensures Unmoved(old(slots), old(others), old(source), old(sink), i)
    {
      hide Behaviour, Indexed;
      Appear();
      Do(slots[i := slots[i].(remote := if slots[i].mode.Sending? then sink[c] else source[c])], source, sink);
    }

    /** Other endpoints, and pointers that no other task has yet to publish, stay as they were. */
    ghost predicate Unmoved(slots0: seq<Slot>, others0: seq<seq<Publication>>, source0: seq<Option<Ref>>,
                            sink0: seq<Option<Ref>>, i: nat)
      reads this
    {
      && |slots| == |slots0| && (forall j :: 0 <= j < |slots| && j != i ==> slots[j] == slots0[j])
      && |others| <= (if others0 == [] then 0 else |others0| - 1)
      && (others0 == [] ==> source == source0 && sink == sink0)
    }

    ghost predicate Missing(i: nat, c: nat)
      requires Valid()
      reads this
    {
      i < |slots| && c < |app.conns| && !slots[i].mode.Uninitialised? && slots[i].remote.None?
        && PeerPointer(state, slots[i], c).None?
    }

    /** Look for one peer; count it if it is not there yet. */
    method ScanSlot(i: nat, unresolved: nat, c: nat) returns (unresolved': nat)
      requires At(Scanning(i, unresolved, false)) && i < |slots| && c == app.index[id][i] && c < |app.conns|
      modifies `slots, `source, `sink, `others, `state, `trace
      ensures old(trace) <= trace && At(Scanning(i + 1, unresolved', false))
      ensures Unmoved(old(slots), old(others), old(source), old(sink), i)
      ensures unresolved' >= unresolved && (unresolved' > unresolved ==> Missing(i, c))
    {
      hide Behaviour, Indexed;
      unresolved' := unresolved;
      Appear();
      if !slots[i].mode.Uninitialised? && slots[i].remote.None? {
        if (slots[i].mode.Sending? && sink[c].Some?) || (slots[i].mode.Receiving? && source[c].Some?) {
          Do(slots, source, sink);
          FetchPeer(i, unresolved, c);
        } else {
          unresolved' := unresolved + 1;
          Do(slots, source, sink);
        }
      } else {
        Do(slots, source, sink);
      }
    }

    /** One scan of all the endpoints. */
    method Scan() returns (unresolved: nat)
      requires At(Scanning(0, 0, false))
      modifies `slots, `source, `sink, `others, `state, `trace
      ensures old(trace) <= trace && At(Scanning(|slots|, unresolved, false))
      ensures unresolved > 0 && old(others) != [] ==> |others| < old(|others|)
      ensures old(others) == [] ==> others == []
      ensures unresolved > 0 && old(others) == [] ==> exists i :: 0 <= i < |slots| && Missing(i, app.index[id][i])
    {
      hide Behaviour;
      var i := 0;
      unresolved := 0;
      ghost var missing := 0;
      while i < |slots|
        invariant i <= |slots| && |slots| == old(|slots|) && old(trace) <= trace && At(Scanning(i, unresolved, false))
        invariant i == 0 ==> others == old(others)
        invariant i > 0 && old(others) != [] ==> |others| < old(|others|)
        invariant old(others) == [] ==> others == []
        invariant unresolved > 0 ==> i > 0
        invariant unresolved > 0 && old(others) == [] ==> missing < i && Missing(missing, app.index[id][missing])
      {
        assert ListsOwn(app, id, i);
        ghost var before := unresolved;
        unresolved := ScanSlot(i, unresolved, app.index[id][i]);
        if unresolved > before { missing := i; }
        i := i + 1;
      }
    }

    /** Scan until every peer has been found. If the other tasks have nothing more to publish and a
        peer is still missing the program would scan for ever; the model then stops. */
    method Resolve() returns (finished: bool)
      requires At(Scanning(0, 0, false))
      modifies `slots, `source, `sink, `others, `state, `trace
      ensures old(trace) <= trace && Valid()
      ensures if finished then state.tasks[id].phase.Active?
              else At(Scanning(0, 0, false)) && others == []
                   && exists i :: 0 <= i < |slots| && Missing(i, app.index[id][i])
    {
      hide Behaviour;
      finished := false;
      var last := false;
      while !finished && !last
        invariant old(trace) <= trace && Valid()
        invariant if finished then state.tasks[id].phase.Active? else At(Scanning(0, 0, false))
        invariant last && !finished ==> others == [] && exists i :: 0 <= i < |slots| && Missing(i, app.index[id][i])
        decreases if finished || last then 0 else 1 + |others|
      {
        last := others == [];
        var unresolved := Scan();
        finished := unresolved == 0;
        Do(slots, source, sink);
      }
    }
  }
}
