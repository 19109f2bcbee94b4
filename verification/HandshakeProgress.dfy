/** Calls complete: when no waiter is overtaken, every schedule is finite and can only come to rest
    with both programs finished. */
module HandshakeProgress {
  import opened CopyPlan
  import opened Handshake
  import opened HandshakeSkew
  import opened Rendezvous
  import opened HandshakeAgreement
  import opened HandshakeAgreementSteps

  /** No sequence word takes effect at a waiter that has not yet looked at the one it waits for,
      and no control word misleads an end that has its answer but has not read it. */
  predicate NoLapping(cfg: Config, s: State, st: Step) {
    Orderly(cfg, s, st) &&
    (st.Arrive? && At(s, st.x).inbox != [] && At(s, st.x).inbox[0].WSeq? ==>
       !(Waiting(At(s, st.x)) && At(s, st.x).arrived.n == At(s, st.x).out.n))
  }

  predicate NoLapRun(cfg: Config, s: State, steps: seq<Step>)
    requires cfg.modulus > 0
    decreases |steps|
  {
    steps == [] || (Enabled(cfg, s, steps[0]) && NoLapping(cfg, s, steps[0])
      && NoLapRun(cfg, Next(cfg, s, steps[0]), steps[1..]))
  }

  predicate Unlapped(s: State) {
    !Lapped(s.tx) && !Lapped(s.rx)
  }

  lemma CoreKeepsUnlapped(cfg: Config, s: State, x: Side)
    requires cfg.modulus >= 2 && SkewInv(cfg, s) && Unlapped(s) && CanAct(cfg, x, At(s, x))
    ensures !Lapped(Act(cfg, x, At(s, x), s.mem).me)
  {
    SkewBounds(cfg, s);
  }

  lemma StepKeepsUnlapped(cfg: Config, s: State, st: Step)
    requires cfg.modulus >= 2 && SkewInv(cfg, s) && Unlapped(s) && Enabled(cfg, s, st) && NoLapping(cfg, s, st)
    ensures Unlapped(Next(cfg, s, st))
  {
    if st.Core? {
      CoreKeepsUnlapped(cfg, s, st.x);
      var p := At(s, Peer(st.x));
      assert Lapped(p.(inbox := p.inbox + Act(cfg, st.x, At(s, st.x), s.mem).out)) == Lapped(p);
    } else if st.Arrive? {
      assert !Lapped(Land(At(s, st.x)));
    }
  }

  // ----- a measure

  /** Core steps still to come in a call at each position, apart from the accesses of the copy. */
  function Rank(pc: Pc): nat {
    match pc
    case Idle => 12
    case PutAddr => 11
    case PutCtl => 10
    case PutSeq => 9
    case Await1 => 8
    case GetCtl => 7
    case GetDest => 6
    case GetAlign => 5
    case Copy => 3
    case PutSeq2 => 2
    case Await2 => 1
  }

  function Cost(calls: seq<Call>): nat {
    if calls == [] then 0 else 12 + Size(calls[0]) + Cost(calls[1..])
  }

  /** Core steps still to come in the current call, or in the one about to begin. */
  function Here(e: End, c: Call): nat {
    Rank(e.pc)
    + (if e.pc.Copy? then |e.plan| else if e.pc.PutSeq2? || e.pc.Await2? then 0 else Size(c))
  }

  function Left(cfg: Config, x: Side, e: End): nat {
    if e.next >= |Calls(cfg, x)| then 0
    else Here(e, Calls(cfg, x)[e.next]) + Cost(Calls(cfg, x)[e.next + 1..])
  }

  function Measure(cfg: Config, s: State): nat {
    2 * (Left(cfg, Tx, s.tx) + Left(cfg, Rx, s.rx)) + |s.tx.inbox| + |s.rx.inbox|
  }

  lemma ActHere(cfg: Config, x: Side, e: End, mem: seq<Byte>)
    requires cfg.modulus >= 2 && CanAct(cfg, x, e)
    ensures var move := Act(cfg, x, e, mem);
            |move.out| <= 1 &&
            (if move.me.next == e.next then Here(move.me, CallOf(cfg, x, e)) < Here(e, CallOf(cfg, x, e))
             else move.me.next == e.next + 1 && move.me.pc.Idle?)
  {
    hide Plan, Slice, WordAligned, Buffer;
    if e.pc.GetAlign? {
      var src, c := Buffer(cfg, x, CallOf(cfg, x, e)), CallOf(cfg, x, e);
      PlanShort(WordAligned(src, e.addrFromPeer), src, e.dest, Size(c));
    }
  }

  lemma LeftAtReturn(cfg: Config, x: Side, e: End, me: End)
    requires e.next < |Calls(cfg, x)| && me.next == e.next + 1 && me.pc.Idle?
    ensures Left(cfg, x, me) < Left(cfg, x, e)
  {
    var rest := Calls(cfg, x)[e.next + 1..];
    if rest != [] { assert rest[1..] == Calls(cfg, x)[me.next + 1..]; }
  }

  lemma ActLeft(cfg: Config, x: Side, e: End, mem: seq<Byte>)
    requires cfg.modulus >= 2 && CanAct(cfg, x, e)
    ensures var move := Act(cfg, x, e, mem);
            Left(cfg, x, move.me) < Left(cfg, x, e) && |move.out| <= 1
  {
    var me := Act(cfg, x, e, mem).me;
    ActHere(cfg, x, e, mem);
    if me.next != e.next { LeftAtReturn(cfg, x, e, me); }
  }

  /** A plan has no more accesses than there are bytes. */
  lemma PlanShort(wordAligned: bool, src: nat, dst: nat, size: nat)
    ensures |Plan(wordAligned, src, dst, size)| <= size
  {
    var lead, e := Lead(src, dst, size), DoublesEnd(src, dst, size);
    if wordAligned {
      if Paced(src, dst, size) { BurstLength(lead, 8, 4 * ((size - lead) / 32)); }
      WordsLength(e, size);
    } else {
      BurstLength(0, 1, 8 * (size / 8));
      BurstLength(OctetsEnd(size), 1, size - OctetsEnd(size));
    }
  }

  lemma CoreDecreases(cfg: Config, s: State, x: Side, move: Move)
    requires Left(cfg, x, move.me) < Left(cfg, x, At(s, x)) && |move.out| <= 1
    requires move.me.inbox == At(s, x).inbox
    ensures Measure(cfg, Settle(s, x, move)) < Measure(cfg, s)
  {
    var p := At(s, Peer(x));
    assert |p.inbox + move.out| <= |p.inbox| + 1;
    assert Left(cfg, Peer(x), p.(inbox := p.inbox + move.out)) == Left(cfg, Peer(x), p);
  }

  lemma ArriveDecreases(cfg: Config, s: State, x: Side)
    requires cfg.modulus >= 2 && At(s, x).inbox != []
    ensures Measure(cfg, Next(cfg, s, Arrive(x))) < Measure(cfg, s)
  {
    assert Left(cfg, x, Land(At(s, x))) == Left(cfg, x, At(s, x));
  }

  lemma SameEnds(cfg: Config, s: State, s': State)
    requires s'.tx == s.tx && s'.rx == s.rx
    ensures Measure(cfg, s') == Measure(cfg, s)
  {
    hide Left;
  }

  /** Every step of a core, and every arrival, brings the system closer to rest. A core that spins
      in a wait loop makes no step. */
  lemma StepDecreases(cfg: Config, s: State, st: Step)
    requires cfg.modulus >= 2 && Enabled(cfg, s, st)
    ensures ProtocolStep(st) ==> Measure(cfg, Next(cfg, s, st)) < Measure(cfg, s)
    ensures !ProtocolStep(st) ==> Measure(cfg, Next(cfg, s, st)) == Measure(cfg, s)
  {
    hide Act, Left, Measure, Land;
    match st
    case Core(x) =>
      ActLeft(cfg, x, At(s, x), s.mem);
      ActKeepsInbox(cfg, x, At(s, x), s.mem);
      CoreDecreases(cfg, s, x, Act(cfg, x, At(s, x), s.mem));
    case Arrive(x) => ArriveDecreases(cfg, s, x);
    case Store(x, at, b) => SameEnds(cfg, s, Next(cfg, s, st));
    case Misuse(_) =>
  }

  function ProtocolSteps(steps: seq<Step>): nat {
    if steps == [] then 0 else (if ProtocolStep(steps[0]) then 1 else 0) + ProtocolSteps(steps[1..])
  }

  /** A bound on the length of every schedule, lapping or not. */
  lemma {:induction false} SchedulesAreFinite(cfg: Config, s: State, steps: seq<Step>)
    requires cfg.modulus >= 2 && Run(cfg, s, steps)
    ensures ProtocolSteps(steps) + Measure(cfg, Exec(cfg, s, steps)) <= Measure(cfg, s)
    decreases |steps|
  {
    if steps != [] {
      StepDecreases(cfg, s, steps[0]);
      SchedulesAreFinite(cfg, Next(cfg, s, steps[0]), steps[1..]);
    }
  }

  // ----- coming to rest

  /** No step that the no-lapping assumption allows is possible. */
  ghost predicate AtRest(cfg: Config, s: State) {
    forall st :: ProtocolStep(st) && NoLapping(cfg, s, st) ==> !Enabled(cfg, s, st)
  }

  predicate Finished(cfg: Config, x: Side, e: End) {
    e.pc.Idle? && e.next == |Calls(cfg, x)|
  }

  /** Postponing an arrival never blocks: the end it is postponed for can move itself. */
  lemma RestMeansQuiet(cfg: Config, s: State, x: Side)
    requires Linked(cfg, s) && Unlapped(s) && AtRest(cfg, s)
    ensures At(s, x).inbox == []
    ensures Finished(cfg, x, At(s, x)) || (Waiting(At(s, x)) && At(s, x).arrived.n < At(s, x).out.n)
  {
    var e := At(s, x);
    DecidesExactly(cfg, s, x);
    assert NoLapping(cfg, s, Core(x));
    assert !Enabled(cfg, s, Core(x));
    if e.inbox != [] { assert NoLapping(cfg, s, Arrive(x)); assert Enabled(cfg, s, Arrive(x)); }
  }

  function Common(cfg: Config): nat {
    if |cfg.txCalls| <= |cfg.rxCalls| then |cfg.txCalls| else |cfg.rxCalls|
  }

  /** This end has returned from every call that has a partner, and waits in the next one if there is
      such a call. */
  predicate CommonDone(cfg: Config, x: Side, e: End) {
    && e.next == Common(cfg) && |e.log| == Common(cfg)
    && (if |Calls(cfg, x)| == Common(cfg) then e.pc.Idle? else e.pc.Await1?)
  }

  /** The only place to come to rest is the end of the shorter program, with the longer one waiting in
      its next call; for programs of the same length, the end of both. */
  lemma RestMeansDone(cfg: Config, s: State)
    requires Linked(cfg, s) && Unlapped(s) && AtRest(cfg, s)
    ensures CommonDone(cfg, Tx, s.tx) && CommonDone(cfg, Rx, s.rx)
  {
    hide Heard, AtRest, Place, Numbered;
    RestMeansQuiet(cfg, s, Tx);
    RestMeansQuiet(cfg, s, Rx);
    QuietCounts(cfg, s);
    SkewBounds(cfg, s);
    WhereOut(cfg, Tx, s.tx);
    WhereOut(cfg, Rx, s.rx);
    if Finished(cfg, Tx, s.tx) { LongerWaits(cfg, Rx, s.rx, s.tx); } else { LongerWaits(cfg, Tx, s.tx, s.rx); }
  }

  /** `d` has finished; `e` has finished or waits for a phase that `d` has not issued. */
  lemma LongerWaits(cfg: Config, x: Side, e: End, d: End)
    requires cfg.modulus >= 2 && Place(cfg, x, e) && Place(cfg, Peer(x), d) && SkewCore(cfg, x, e)
    requires SkewCore(cfg, Peer(x), d)
    requires Finished(cfg, Peer(x), d) && (Finished(cfg, x, e) || (Waiting(e) && d.out.n < e.out.n))
    requires e.comp <= d.out.n && e.out.n <= d.comp + 1 && d.comp <= e.out.n
    ensures CommonDone(cfg, x, e) && CommonDone(cfg, Peer(x), d)
  {
    WhereOut(cfg, x, e);
    WhereOut(cfg, Peer(x), d);
    if e.next < d.next { BaseMono(cfg, e.next, d.next); }
    if d.next < e.next { BaseMono(cfg, d.next, e.next); }
  }

  lemma QuietCounts(cfg: Config, s: State)
    requires cfg.modulus >= 2 && SkewInv(cfg, s) && s.tx.inbox == [] && s.rx.inbox == []
    ensures s.tx.arrived.n == s.rx.out.n && s.rx.arrived.n == s.tx.out.n
  {
  }

  lemma {:induction false} NoLapRunKeeps(cfg: Config, s: State, steps: seq<Step>)
    requires Agree(cfg, s) && Unlapped(s) && NoLapRun(cfg, s, steps)
    ensures OrderlyRun(cfg, s, steps) && Run(cfg, s, steps)
    ensures Agree(cfg, Exec(cfg, s, steps)) && Unlapped(Exec(cfg, s, steps))
    decreases |steps|
  {
    if steps != [] {
      StepKeepsAgree(cfg, s, steps[0]);
      StepKeepsUnlapped(cfg, s, steps[0]);
      NoLapRunKeeps(cfg, Next(cfg, s, steps[0]), steps[1..]);
    }
  }

  /** Total correctness without lapping: for any two programs, of any kinds, sizes and numbers of calls,
      every schedule makes at most a fixed number of steps, and once no more steps can be made both
      programs have returned from all calls that have a partner, each with the result that the pair of
      calls prescribes; a longer program waits in its next call. */
  lemma CompletionTheorem(cfg: Config, mem: seq<Byte>, steps: seq<Step>)
    requires WellFormed(cfg, |mem|) && NoLapRun(cfg, Init(mem), steps)
    ensures Run(cfg, Init(mem), steps)
    ensures ProtocolSteps(steps) <= Measure(cfg, Init(mem))
    ensures var s := Exec(cfg, Init(mem), steps);
            AtRest(cfg, s) ==>
              && CommonDone(cfg, Tx, s.tx) && CommonDone(cfg, Rx, s.rx)
              && Results(cfg, Tx, s.tx, s.tx.snaps) && Results(cfg, Rx, s.rx, s.tx.snaps)
  {
    InitAgrees(cfg, mem);
    NoLapRunKeeps(cfg, Init(mem), steps);
    SchedulesAreFinite(cfg, Init(mem), steps);
    var s := Exec(cfg, Init(mem), steps);
    if AtRest(cfg, s) { RestMeansDone(cfg, s); }
  }

  /** Any two calls in progress can go on: with both ends inside their k-th calls there is a step
      that the no-lapping assumption allows. */
  lemma CallsInProgressMove(cfg: Config, s: State)
    requires Linked(cfg, s) && Unlapped(s) && !s.tx.pc.Idle? && !s.rx.pc.Idle?
    ensures !AtRest(cfg, s)
  {
    if AtRest(cfg, s) {
      RestMeansQuiet(cfg, s, Tx);
      RestMeansQuiet(cfg, s, Rx);
      QuietCounts(cfg, s);
      assert false;
    }
  }
}
