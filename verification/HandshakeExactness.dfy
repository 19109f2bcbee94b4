/** Exactly which runs complete: a run at a standstill has returned from all calls that have a partner
    with the prescribed results if and only if on its way no waiter was lapped and no reader misled. */
module HandshakeExactness {
  import opened CopyPlan
  import opened Handshake
  import opened HandshakeSkew
  import opened Rendezvous
  import opened HandshakeAgreement
  import opened HandshakeAgreementSteps
  import opened HandshakeResults
  import opened HandshakeProgress

  // ----- what becomes of a misled call

  predicate NoControl(q: seq<Write>) {
    forall i :: 0 <= i < |q| ==> !q[i].WCtl?
  }

  /** The k-th call of `x` has read, or is about to read, the control word of the peer's next call and
      not that of its partner, to a different effect; and the peer cannot correct it, because its next
      call waits for `x`. */
  predicate Misled(cfg: Config, x: Side, k: nat, s: State) {
    var e, p := At(s, x), At(s, Peer(x));
    && k < |Calls(cfg, x)| && k + 1 < |Calls(cfg, Peer(x))| && Phases(cfg, k) == 1 && !Harmless(cfg, x, k)
    && e.next == |e.log| == k && (e.pc.Await1? || e.pc.GetCtl?)
    && e.ctlFromPeer == Control(Calls(cfg, Peer(x))[k + 1]) && NoControl(e.inbox)
    && (p.pc.PutSeq? || p.pc.Await1?) && p.comp == e.out.n
  }

  predicate SecondPhase(pc: Pc) {
    Sending(pc) || pc.PutSeq2? || pc.Await2?
  }

  /** It has gone on to a second phase that its partner does not have. */
  predicate GoneOn(cfg: Config, x: Side, k: nat, e: End) {
    && k < |Calls(cfg, x)| && k + 1 < |Calls(cfg, Peer(x))|
    && e.next == |e.log| == k && SecondPhase(e.pc)
    && ExpectedError(x, Calls(cfg, x)[k], Calls(cfg, Peer(x))[k]) != 0
  }

  /** It has recorded the wrong error. */
  predicate Mistaken(cfg: Config, x: Side, k: nat, e: End) {
    && k < |Calls(cfg, x)| && k + 1 < |Calls(cfg, Peer(x))| && k < |e.log|
    && e.log[k].error != ExpectedError(x, Calls(cfg, x)[k], Calls(cfg, Peer(x))[k])
  }

  predicate Doomed(cfg: Config, x: Side, k: nat, s: State) {
    Misled(cfg, x, k, s) || GoneOn(cfg, x, k, At(s, x)) || Mistaken(cfg, x, k, At(s, x))
  }

  lemma MisledActs(cfg: Config, s: State, x: Side, k: nat)
    requires cfg.modulus >= 2 && Misled(cfg, x, k, s) && CanAct(cfg, x, At(s, x))
    ensures Doomed(cfg, x, k, Next(cfg, s, Core(x)))
  {
    hide ExpectedError, ExpectedReturn, Phases;
    var e := At(s, x);
    if e.pc.GetCtl? {
      hide Act;
      DecisionByError(cfg, x, e, s.mem, Calls(cfg, Peer(x))[k + 1]);
      OnePhaseErrors(cfg, x, k);
    } else {
      ActKeepsInbox(cfg, x, e, s.mem);
      assert At(s, Peer(x)).inbox + [] == At(s, Peer(x)).inbox;
    }
  }

  lemma MisledPeerActs(cfg: Config, s: State, x: Side, k: nat)
    requires cfg.modulus >= 2 && SkewInv(cfg, s) && Misled(cfg, x, k, s) && CanAct(cfg, Peer(x), At(s, Peer(x)))
    ensures Misled(cfg, x, k, Next(cfg, s, Core(Peer(x))))
  {
    hide Harmless, Phases, Numbered;
    SkewBounds(cfg, s);
    DecidesExactly(cfg, s, Peer(x));
    var e, p := At(s, x), At(s, Peer(x));
    assert p.pc.PutSeq?;
    assert Act(cfg, Peer(x), p, s.mem).out == [WSeq(p.newSeq)];
    assert NoControl(e.inbox + [WSeq(p.newSeq)]);
  }

  lemma MisledArrives(cfg: Config, s: State, x: Side, k: nat, y: Side)
    requires cfg.modulus >= 2 && Misled(cfg, x, k, s) && At(s, y).inbox != []
    ensures Misled(cfg, x, k, Next(cfg, s, Arrive(y)))
  {
    hide Harmless, Phases;
    assert y == x ==> !At(s, x).inbox[0].WCtl?;
  }

  lemma GoneOnActs(cfg: Config, x: Side, k: nat, e: End, mem: seq<Byte>)
    requires cfg.modulus >= 2 && GoneOn(cfg, x, k, e) && CanAct(cfg, x, e)
    ensures var me := Act(cfg, x, e, mem).me; GoneOn(cfg, x, k, me) || Mistaken(cfg, x, k, me)
  {
    hide ExpectedError, Plan, Slice, Buffer, WordAligned;
  }

  lemma ActKeepsLog(cfg: Config, x: Side, e: End, mem: seq<Byte>)
    requires cfg.modulus >= 2 && CanAct(cfg, x, e)
    ensures e.log <= Act(cfg, x, e, mem).me.log
  {
  }

  lemma StepKeepsDoomed(cfg: Config, s: State, st: Step, x: Side, k: nat)
    requires cfg.modulus >= 2 && SkewInv(cfg, s) && Doomed(cfg, x, k, s) && Enabled(cfg, s, st)
    ensures Doomed(cfg, x, k, Next(cfg, s, st))
  {
    hide SkewInv, ExpectedError, Harmless, Phases, Act;
    if Misled(cfg, x, k, s) {
      match st
      case Core(y) => if y == x { MisledActs(cfg, s, x, k); } else { MisledPeerActs(cfg, s, x, k); }
      case Arrive(y) => MisledArrives(cfg, s, x, k, y);
      case Store(_, _, _) =>
      case Misuse(_) =>
    } else if st == Core(x) {
      ActKeepsLog(cfg, x, At(s, x), s.mem);
      if GoneOn(cfg, x, k, At(s, x)) { GoneOnActs(cfg, x, k, At(s, x), s.mem); }
    }
  }

  lemma {:induction false} DoomedForEver(cfg: Config, s: State, steps: seq<Step>, x: Side, k: nat)
    requires cfg.modulus >= 2 && SkewInv(cfg, s) && Doomed(cfg, x, k, s) && Run(cfg, s, steps)
    ensures Doomed(cfg, x, k, Exec(cfg, s, steps))
    decreases |steps|
  {
    hide SkewInv, Doomed, Next, Enabled;
    if steps != [] {
      StepKeepsDoomed(cfg, s, steps[0], x, k);
      StepKeepsSkew(cfg, s, steps[0]);
      DoomedForEver(cfg, Next(cfg, s, steps[0]), steps[1..], x, k);
    }
  }

  // ----- how a call comes to be misled

  lemma {:induction false} NoMoreControl(cfg: Config, y: Side, sent: seq<seq<Byte>>, v: View, q: seq<Write>,
                                         total: View)
    requires GoodView(cfg, y, v) && Leads(cfg, y, sent, v, q, total) && v.ctls == total.ctls
    ensures NoControl(q)
    decreases |q|
  {
    if q != [] {
      GoodAfter(cfg, y, sent, v, q[0]);
      LeadsMono(cfg, y, sent, After(v, q[0]), q[1..], total);
      NoMoreControl(cfg, y, sent, After(v, q[0]), q[1..], total);
    }
  }

  lemma OvertakingMisleads(cfg: Config, s: State, x: Side)
    requires Agree(cfg, s) && Enabled(cfg, s, Arrive(x)) && !Orderly(cfg, s, Arrive(x))
    ensures Misled(cfg, x, At(s, x).next, Next(cfg, s, Arrive(x)))
  {
    hide Contents, WellFormed, Legal, Linked, Leads, GoodView, Phases, ExpectedError;
    var e, p, k := At(s, x), At(s, Peer(x)), At(s, x).next;
    OvertakenReadsNextCall(cfg, s, x);
    ControlFollowsCalls(cfg, s, x);
    InsideOneCall(cfg, s, x);
    Counts(cfg, s, x);
    LinkedPeer(cfg, s, x);
    PeerInNextCall(cfg, x, k, e, p);
    NoMoreControl(cfg, Peer(x), s.tx.snaps, After(e.arrived, e.inbox[0]), e.inbox[1..], p.out);
  }

  /** The counts at an end with a pending answer that a control word overtakes, and at its peer. */
  lemma Counts(cfg: Config, s: State, x: Side)
    requires Linked(cfg, s) && Enabled(cfg, s, Arrive(x)) && !Orderly(cfg, s, Arrive(x))
    ensures var e, p, k := At(s, x), At(s, Peer(x)), At(s, x).next;
            var v := After(e.arrived, e.inbox[0]);
            && e.out.n == Base(cfg, k) + 1 && p.comp <= p.arrived.n <= e.out.n
            && GoodView(cfg, Peer(x), v) && Leads(cfg, Peer(x), s.tx.snaps, v, e.inbox[1..], p.out)
            && v.ctls == e.arrived.ctls + 1 <= p.out.ctls
    ensures At(s, x).arrived.ctls == At(s, x).next + 1
  {
    hide WellFormed, OutBytes, LegalData;
    var e, p := At(s, x), At(s, Peer(x));
    OvertakingIsNextCall(cfg, s, x);
    ControlFollowsCalls(cfg, s, x);
    SkewBounds(cfg, s);
    WhereOut(cfg, x, e);
    GoodAfter(cfg, Peer(x), s.tx.snaps, e.arrived, e.inbox[0]);
    LeadsMono(cfg, Peer(x), s.tx.snaps, After(e.arrived, e.inbox[0]), e.inbox[1..], p.out);
  }

  /** Where the peer is whose control word overtook a reader in call `k`. */
  lemma PeerInNextCall(cfg: Config, x: Side, k: nat, e: End, p: End)
    requires cfg.modulus >= 2 && Place(cfg, Peer(x), p) && SkewCore(cfg, Peer(x), p) && Phases(cfg, k) == 1
    requires e.out.n == Base(cfg, k) + 1 && p.comp <= p.arrived.n <= e.out.n && Base(cfg, k + 1) <= p.comp
    requires p.out.ctls >= k + 2
    ensures p.comp == e.out.n && p.out.ctls == k + 2 && (p.pc.PutSeq? || p.pc.Await1?)
  {
    WhereOut(cfg, Peer(x), p);
    BaseMono(cfg, k, k + 1);
    if p.next > k + 1 { BaseMono(cfg, k + 1, p.next); }
  }

  // ----- the equivalence

  /** A sequence word that arrives too early laps its reader. */
  lemma EarlyArrivalLaps(cfg: Config, s: State, st: Step)
    requires cfg.modulus > 0 && Enabled(cfg, s, st) && Orderly(cfg, s, st) && !NoLapping(cfg, s, st)
    ensures st.Arrive? && Lapped(At(Next(cfg, s, st), st.x))
  {
  }

  /** Every call that has a partner has returned, with the result that the pair prescribes. */
  predicate AllReturned(cfg: Config, s: State) {
    && CommonDone(cfg, Tx, s.tx) && CommonDone(cfg, Rx, s.rx)
    && Results(cfg, Tx, s.tx, s.tx.snaps) && Results(cfg, Rx, s.rx, s.tx.snaps)
  }

  lemma DoomedNotReturned(cfg: Config, s: State, x: Side, k: nat)
    requires Doomed(cfg, x, k, s)
    ensures !AllReturned(cfg, s)
  {
    hide ExpectedError, Harmless, Phases;
  }

  lemma LappedNotReturned(cfg: Config, s: State)
    requires cfg.modulus >= 2 && SkewInv(cfg, s) && !Unlapped(s)
    ensures !AllReturned(cfg, s)
  {
    hide Results;
    SkewBounds(cfg, s);
  }

  /** The first step that laps or misleads someone decides how the run ends. */
  lemma {:induction false} FirstWrongStep(cfg: Config, s: State, steps: seq<Step>)
    requires Agree(cfg, s) && Run(cfg, s, steps) && !NoLapRun(cfg, s, steps)
    ensures !AllReturned(cfg, Exec(cfg, s, steps))
    decreases |steps|
  {
    hide Contents, SkewInv, NoLapping, Orderly, Next, Enabled, AllReturned, Misled, Place, Heard, WellFormed, Lapped;
    var st := steps[0];
    var s1 := Next(cfg, s, st);
    StepKeepsSkew(cfg, s, st);
    RunKeepsSkew(cfg, s1, steps[1..]);
    if NoLapping(cfg, s, st) {
      NoLappingOrderly(cfg, s, st);
      StepKeepsAgree(cfg, s, st);
      FirstWrongStep(cfg, s1, steps[1..]);
    } else if Orderly(cfg, s, st) {
      EarlyArrivalLaps(cfg, s, st);
      LappedForever(cfg, s1, steps[1..], st.x);
      LappedNotReturned(cfg, Exec(cfg, s, steps));
    } else {
      OnlyArrivalsMislead(cfg, s, st);
      OvertakingMisleads(cfg, s, st.x);
      DoomedForEver(cfg, s1, steps[1..], st.x, At(s, st.x).next);
      DoomedNotReturned(cfg, Exec(cfg, s, steps), st.x, At(s, st.x).next);
    }
  }

  lemma NoLappingOrderly(cfg: Config, s: State, st: Step)
    requires NoLapping(cfg, s, st)
    ensures Orderly(cfg, s, st)
  {
  }

  lemma OnlyArrivalsMislead(cfg: Config, s: State, st: Step)
    requires !Orderly(cfg, s, st)
    ensures st.Arrive?
  {
  }

  /** For any two programs and every run, however interleaved, to a state in which no core can move and
      nothing is on its way: all calls that have a partner have returned, on both ends with the results
      and buffers that the pairs of calls prescribe, if and only if on the way no sequence word came
      before its reader had seen the previous one and no control word misled the reader it overtook. */
  lemma CompletionExactly(cfg: Config, mem: seq<Byte>, steps: seq<Step>)
    requires WellFormed(cfg, |mem|) && Run(cfg, Init(mem), steps)
    requires Stuck(cfg, Exec(cfg, Init(mem), steps))
    ensures AllReturned(cfg, Exec(cfg, Init(mem), steps)) <==> NoLapRun(cfg, Init(mem), steps)
  {
    hide SkewInv, NoLapping, CommonDone, Init, Linked, Contents, Results;
    InitAgrees(cfg, mem);
    if NoLapRun(cfg, Init(mem), steps) {
      CompletionTheorem(cfg, mem, steps);
    } else {
      FirstWrongStep(cfg, Init(mem), steps);
    }
  }

  /** For matched transfers: they all complete if and only if no sender or receiver was lapped in a
      wait. */
  lemma TransfersCompleteExactly(cfg: Config, mem: seq<Byte>, steps: seq<Step>)
    requires WellFormed(cfg, |mem|) && AllMove(cfg) && |cfg.txCalls| == |cfg.rxCalls| && Run(cfg, Init(mem), steps)
    requires Stuck(cfg, Exec(cfg, Init(mem), steps))
    ensures var s := Exec(cfg, Init(mem), steps);
            Finished(cfg, Tx, s.tx) && Finished(cfg, Rx, s.rx) <==> NoLapRun(cfg, Init(mem), steps)
  {
    hide Results;
    InitAgrees(cfg, mem);
    TransferRunIsOrderly(cfg, Init(mem), steps);
    CompletionExactly(cfg, mem, steps);
    AgreementTheorem(cfg, mem, steps);
    FinishedIsReturned(cfg, Exec(cfg, Init(mem), steps));
  }

  lemma FinishedIsReturned(cfg: Config, s: State)
    requires Results(cfg, Tx, s.tx, s.tx.snaps) && Results(cfg, Rx, s.rx, s.tx.snaps) && |cfg.txCalls| == |cfg.rxCalls|
    ensures AllReturned(cfg, s) <==> Finished(cfg, Tx, s.tx) && Finished(cfg, Rx, s.rx)
  {
  }
}
