/** Composition of start-up with the handshake: seen from one connection, every run of the whole
    application is a run of the handshake machine from its initial state. No write is lost to the
    clearing of an endpoint, and what the handshake guarantees holds for every connection. */
module StartupHandshake {
  import opened CopyPlan
  import opened Startup
  import opened StartupResults
  import H = Handshake
  import R = Rendezvous
  import HandshakeAgreement
  import HandshakeResults

  /** An end as the handshake sees it: untouched until its owner has cleared it. */
  function EndAt(s: State, r: Ref): H.End
    requires Exists(s, r)
  {
    if Cleared(s.tasks[r.task], r.slot) then At(s, r).end else H.FRESH_END
  }

  /** One connection of the application as a state of the handshake machine. */
  function Project(app: App, s: State, c: nat): H.State
    requires Indexed(app) && Shaped(app, s) && c < |app.conns|
  {
    assert ListedByBoth(app, c);
    H.State(EndAt(s, SourceOf(app, c)), EndAt(s, SinkOf(app, c)), s.mems[c])
  }

  /** The step of connection `c` that a step of the application performs, if any. */
  function HandshakeSteps(s: State, st: Step, c: nat): seq<H.Step> {
    match st
    case Begin(_) => []
    case Call(r) => if Exists(s, r) && At(s, r).conn == c then [H.Core(SideOf(At(s, r).mode))] else []
    case Arrive(r) => if Exists(s, r) && At(s, r).conn == c then [H.Arrive(SideOf(At(s, r).mode))] else []
    case Store(r, at, b) => if Exists(s, r) && At(s, r).conn == c then [H.Store(SideOf(At(s, r).mode), at, b)] else []
  }

  /** `hs` takes the projection of `s` to that of `s'`. */
  predicate Follows(app: App, s: State, s': State, c: nat, hs: seq<H.Step>)
    requires Indexed(app) && Shaped(app, s) && Shaped(app, s') && c < |app.conns|
  {
    ListedByBoth(app, c) &&
    H.Run(app.cfgs[c], Project(app, s, c), hs) && H.Exec(app.cfgs[c], Project(app, s, c), hs) == Project(app, s', c)
  }

  lemma BeginIsInvisible(app: App, s: State, t: nat, c: nat)
    requires Indexed(app) && Inv(app, s) && t < |s.tasks| && !s.tasks[t].phase.Active? && c < |app.conns|
    ensures var s' := Next(app, s, Begin(t)); Shaped(app, s') && Project(app, s', c) == Project(app, s, c)
  {
    StepKeepsShape(app, s, Begin(t));
    assert ListedByBoth(app, c);
    BeginKeepsEnd(app, s, t, SourceOf(app, c));
    BeginKeepsEnd(app, s, t, SinkOf(app, c));
  }

  lemma BeginKeepsEnd(app: App, s: State, t: nat, r: Ref)
    requires Indexed(app) && Inv(app, s) && t < |s.tasks| && !s.tasks[t].phase.Active? && Exists(s, r)
    ensures var s' := Next(app, s, Begin(t)); Exists(s', r) && EndAt(s', r) == EndAt(s, r)
  {
    assert SlotOk(app, s, r.task, r.slot) && PhaseOk(app, s, t);
    if r.task == t && s.tasks[t].phase.i < |s.tasks[t].slots| { assert ListsOwn(app, t, s.tasks[t].phase.i); }
  }

  lemma OneStep(cfg: H.Config, hs: H.State, st: H.Step)
    requires cfg.modulus > 0 && H.Enabled(cfg, hs, st)
    ensures H.Run(cfg, hs, [st]) && H.Exec(cfg, hs, [st]) == H.Next(cfg, hs, st)
  {
    assert [st][1..] == [];
  }

  lemma InvShaped(app: App, s: State)
    requires Indexed(app) && Inv(app, s)
    ensures Shaped(app, s)
  {
  }

  lemma CallFollows(app: App, s: State, r: Ref, c: nat)
    requires Indexed(app) && Inv(app, s) && Enabled(app, s, Call(r)) && c < |app.conns|
    ensures Shaped(app, CallStep(app, s, r)) && Follows(app, s, CallStep(app, s, r), c, HandshakeSteps(s, Call(r), c))
  {
    if At(s, r).conn == c { CallFollowsHere(app, s, r, c); } else { CallFollowsElsewhere(app, s, r, c); }
  }

  lemma CallFollowsHere(app: App, s: State, r: Ref, c: nat)
    requires Indexed(app) && Inv(app, s) && Enabled(app, s, Call(r)) && c < |app.conns| && At(s, r).conn == c
    ensures Shaped(app, CallStep(app, s, r)) && Follows(app, s, CallStep(app, s, r), c, HandshakeSteps(s, Call(r), c))
  {
    hide H.Act, Inv;
    InvShaped(app, s);
    StepKeepsShape(app, s, Call(r));
    assert ListedByBoth(app, c);
    Reciprocal(app, s, r);
    OneStep(app.cfgs[c], Project(app, s, c), H.Core(SideOf(At(s, r).mode)));
  }

  lemma CallFollowsElsewhere(app: App, s: State, r: Ref, c: nat)
    requires Indexed(app) && Inv(app, s) && Enabled(app, s, Call(r)) && c < |app.conns| && At(s, r).conn != c
    ensures Shaped(app, CallStep(app, s, r)) && Follows(app, s, CallStep(app, s, r), c, HandshakeSteps(s, Call(r), c))
  {
    hide H.Act, Inv;
    InvShaped(app, s);
    StepKeepsShape(app, s, Call(r));
    assert ListedByBoth(app, c);
    Reciprocal(app, s, r);
    OtherConnection(app, s, r, c);
    OtherConnection(app, s, At(s, r).remote.value, c);
  }

  /** An endpoint of another connection is not one of this connection's. */
  lemma OtherConnection(app: App, s: State, r: Ref, c: nat)
    requires Indexed(app) && Inv(app, s) && Exists(s, r) && Published(s.tasks[r.task], r.slot)
    requires At(s, r).conn != c && c < |app.conns|
    ensures r != SourceOf(app, c) && r != SinkOf(app, c)
  {
    assert SlotOk(app, s, r.task, r.slot) && ListedByBoth(app, c);
  }

  lemma ArriveFollows(app: App, s: State, r: Ref, c: nat)
    requires Indexed(app) && Inv(app, s) && Enabled(app, s, Arrive(r)) && c < |app.conns|
    ensures Shaped(app, ArriveStep(s, r)) && Follows(app, s, ArriveStep(s, r), c, HandshakeSteps(s, Arrive(r), c))
  {
    StepKeepsShape(app, s, Arrive(r));
    assert ListedByBoth(app, c);
    ArrivesAfterClearing(app, s, r);
    assert SlotOk(app, s, r.task, r.slot);
    OnePlace(app, r.task, r.slot);
    if At(s, r).conn == c {
      OneStep(app.cfgs[c], Project(app, s, c), H.Arrive(SideOf(At(s, r).mode)));
    } else {
      OtherConnection(app, s, r, c);
    }
  }

  lemma StoreFollows(app: App, s: State, r: Ref, at: nat, b: Byte, c: nat)
    requires Indexed(app) && Inv(app, s) && Enabled(app, s, Store(r, at, b)) && c < |app.conns|
    ensures var s' := Next(app, s, Store(r, at, b));
            Shaped(app, s') && Follows(app, s, s', c, HandshakeSteps(s, Store(r, at, b), c))
  {
    StepKeepsShape(app, s, Store(r, at, b));
    assert ListedByBoth(app, c);
    Reciprocal(app, s, r);
    if At(s, r).conn == c {
      OneStep(app.cfgs[c], Project(app, s, c), H.Store(SideOf(At(s, r).mode), at, b));
    }
  }

  lemma StepFollows(app: App, s: State, st: Step, c: nat)
    requires Indexed(app) && Inv(app, s) && Enabled(app, s, st) && c < |app.conns|
    ensures Shaped(app, Next(app, s, st)) && Follows(app, s, Next(app, s, st), c, HandshakeSteps(s, st, c))
  {
    match st
    case Begin(t) => assert ListedByBoth(app, c); BeginIsInvisible(app, s, t, c);
    case Call(r) => CallFollows(app, s, r, c);
    case Arrive(r) => ArriveFollows(app, s, r, c);
    case Store(r, at, b) => StoreFollows(app, s, r, at, b, c);
  }

  /** The handshake steps of a whole run, for one connection. */
  function Trace(app: App, s: State, steps: seq<Step>, c: nat): seq<H.Step>
    requires Indexed(app) && Shaped(app, s) && Run(app, s, steps)
    decreases |steps|
  {
    if steps == [] then []
    else
      StepKeepsShape(app, s, steps[0]);
      HandshakeSteps(s, steps[0], c) + Trace(app, Next(app, s, steps[0]), steps[1..], c)
  }

  lemma {:induction false} RunFollows(app: App, s: State, steps: seq<Step>, c: nat)
    requires Indexed(app) && Inv(app, s) && Run(app, s, steps) && c < |app.conns|
    ensures Inv(app, Exec(app, s, steps))
    ensures Follows(app, s, Exec(app, s, steps), c, Trace(app, s, steps, c))
    decreases |steps|
  {
    assert ListedByBoth(app, c);
    if steps != [] {
      var s' := Next(app, s, steps[0]);
      StepKeepsInv(app, s, steps[0]);
      StepFollows(app, s, steps[0], c);
      RunFollows(app, s', steps[1..], c);
      Joined(app.cfgs[c], Project(app, s, c), HandshakeSteps(s, steps[0], c), Trace(app, s', steps[1..], c));
    }
  }

  lemma Joined(cfg: H.Config, hs: H.State, a: seq<H.Step>, b: seq<H.Step>)
    requires cfg.modulus > 0 && |a| <= 1 && H.Run(cfg, hs, a) && H.Run(cfg, H.Exec(cfg, hs, a), b)
    ensures H.Run(cfg, hs, a + b) && H.Exec(cfg, hs, a + b) == H.Exec(cfg, H.Exec(cfg, hs, a), b)
  {
    if a == [] {
      assert a + b == b;
    } else {
      assert a[1..] == [];
      assert H.Exec(cfg, hs, a) == H.Next(cfg, hs, a[0]);
      assert (a + b)[0] == a[0] && (a + b)[1..] == b;
    }
  }

  /** No start-up signal is lost: whatever the endpoint words held before, and however the start-up
      of the tasks and their first calls interleave, each connection goes through a run of the
      handshake that begins with both ends at sequence zero and nothing on its way. */
  lemma CleanStartTheorem(app: App, s0: State, steps: seq<Step>, c: nat)
    requires Indexed(app) && NoSelfConnection(app) && Initial(app, s0) && Run(app, s0, steps) && c < |app.conns|
    ensures ListedByBoth(app, c)
    ensures var hs := Trace(app, s0, steps, c);
            && H.Run(app.cfgs[c], H.Init(s0.mems[c]), hs)
            && Shaped(app, Exec(app, s0, steps))
            && H.Exec(app.cfgs[c], H.Init(s0.mems[c]), hs) == Project(app, Exec(app, s0, steps), c)
  {
    assert ListedByBoth(app, c);
    InitialInv(app, s0);
    RunFollows(app, s0, steps, c);
    assert Project(app, s0, c) == H.Init(s0.mems[c]);
  }

  /** So on every connection over which all pairs of calls move data, messages are delivered as over
      a rendezvous channel, from the first one on. */
  lemma ApplicationChannels(app: App, s0: State, steps: seq<Step>, c: nat)
    requires Indexed(app) && NoSelfConnection(app) && Initial(app, s0) && Run(app, s0, steps) && c < |app.conns|
    requires c < |app.cfgs| && R.WellFormed(app.cfgs[c], |s0.mems[c]|) && R.AllMove(app.cfgs[c])
    ensures Shaped(app, Exec(app, s0, steps))
    ensures var hs := Project(app, Exec(app, s0, steps), c);
            && |hs.rx.log| <= |hs.tx.snaps|
            && (forall k :: 0 <= k < |hs.rx.log| ==> HandshakeResults.ReceiveDone(app.cfgs[c], hs, k))
            && (forall k :: 0 <= k < |hs.tx.log| ==> HandshakeResults.SendDone(app.cfgs[c], hs, k))
  {
    CleanStartTheorem(app, s0, steps, c);
    HandshakeResults.ChannelTheorem(app.cfgs[c], s0.mems[c], Trace(app, s0, steps, c));
  }
}
