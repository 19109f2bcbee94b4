/** What holds in every run whatever the two cores call and however they interleave: the ends
    stay within one phase of each other, so 32-bit equality tests decide exactly what unbounded
    counters would decide; and the states from which no call can ever finish. */
module HandshakeSkew {
  import opened CopyPlan
  import opened Handshake
  import opened Words

  /** The sequence words among the writes on their way continue the count at `a` up to `total`. */
  predicate Numbered(m: nat, a: nat, q: seq<Write>, total: nat)
    requires m > 0
    decreases |q|
  {
    if q == [] then a == total
    else if q[0].WSeq? then q[0].q == (a + 1) % m && Numbered(m, a + 1, q[1..], total)
    else Numbered(m, a, q[1..], total)
  }

  predicate AwaitsOrReads(pc: Pc) {
    pc.Await1? || pc.GetCtl? || pc.Await2?
  }

  /** The words from the peer reflect its first `arrived.n` phases, the inbox the rest. */
  predicate SkewIn(cfg: Config, e: End, peerOut: nat)
    requires cfg.modulus >= 2
  {
    && Numbered(cfg.modulus, e.arrived.n, e.inbox, peerOut)
    && e.seqFromPeer == e.arrived.n % cfg.modulus
  }

  predicate SkewCore(cfg: Config, x: Side, e: End)
    requires cfg.modulus >= 2
  {
    && e.sequence == e.comp % cfg.modulus
    && e.comp <= e.arrived.n
    && e.next <= |Calls(cfg, x)|
    && (!e.pc.Idle? ==> e.next < |Calls(cfg, x)|)
    && (if AwaitsOrReads(e.pc) then e.out.n == e.comp + 1 && e.newSeq == e.out.n % cfg.modulus
        else e.out.n == e.comp)
    && (e.pc.PutAddr? || e.pc.PutCtl? || e.pc.PutSeq? ==> e.newSeq == (e.comp + 1) % cfg.modulus)
    && (e.pc.GetDest? || e.pc.GetAlign? || e.pc.Copy? || e.pc.PutSeq2? ==> e.newSeq == e.comp % cfg.modulus)
    && (e.pc.GetCtl? ==> e.arrived.n >= e.out.n)
  }

  predicate SkewEnd(cfg: Config, x: Side, e: End, peerOut: nat)
    requires cfg.modulus >= 2
  {
    SkewIn(cfg, e, peerOut) && SkewCore(cfg, x, e)
  }

  predicate SkewInv(cfg: Config, s: State)
    requires cfg.modulus >= 2
  {
    SkewEnd(cfg, Tx, s.tx, s.rx.out.n) && SkewEnd(cfg, Rx, s.rx, s.tx.out.n)
  }

  // ----- counting the sequence words on their way

  lemma {:induction false} NumberedBound(m: nat, a: nat, q: seq<Write>, total: nat)
    requires m > 0 && Numbered(m, a, q, total)
    ensures a <= total
    decreases |q|
  {
    if q != [] { NumberedBound(m, if q[0].WSeq? then a + 1 else a, q[1..], total); }
  }

  lemma {:induction false} NumberedAppend(m: nat, a: nat, q: seq<Write>, total: nat, w: Write)
    requires m > 0 && Numbered(m, a, q, total)
    requires w.WSeq? ==> w.q == (total + 1) % m
    ensures Numbered(m, a, q + [w], if w.WSeq? then total + 1 else total)
    decreases |q|
  {
    if q == [] {
      assert q + [w] == [w] && [w][1..] == [];
    } else {
      NumberedAppend(m, if q[0].WSeq? then a + 1 else a, q[1..], total, w);
      assert (q + [w])[1..] == q[1..] + [w];
    }
  }


  // ----- one core's step

  lemma ActSkew(cfg: Config, x: Side, e: End, mem: seq<Byte>)
    requires cfg.modulus >= 2 && SkewCore(cfg, x, e) && CanAct(cfg, x, e)
    requires Waiting(e) ==> e.arrived.n == e.out.n
    ensures SkewCore(cfg, x, Act(cfg, x, e, mem).me)
  {
    hide Plan, Slice, Buffer, WordAligned;
    SuccessorWraps(e.comp, cfg.modulus);
  }

  lemma ActKeepsInbox(cfg: Config, x: Side, e: End, mem: seq<Byte>)
    requires cfg.modulus >= 2 && CanAct(cfg, x, e)
    ensures var me := Act(cfg, x, e, mem).me;
            me.inbox == e.inbox && me.arrived == e.arrived && me.seqFromPeer == e.seqFromPeer
            && me.ctlFromPeer == e.ctlFromPeer && me.addrFromPeer == e.addrFromPeer
  {
  }

  /** Of the writes a step issues, a sequence word carries the issuer's next count. */
  lemma ActNumbers(cfg: Config, x: Side, e: End, mem: seq<Byte>)
    requires cfg.modulus >= 2 && SkewCore(cfg, x, e) && CanAct(cfg, x, e)
    ensures var move := Act(cfg, x, e, mem);
            (move.out == [] && move.me.out == e.out) ||
            (|move.out| == 1 && move.me.out == After(e.out, move.out[0]) &&
             (move.out[0].WSeq? ==> move.out[0].q == (e.out.n + 1) % cfg.modulus))
  {
    SuccessorWraps(e.comp, cfg.modulus);
  }

  lemma PeerExtends(cfg: Config, x: Side, e: End, peerOut: nat, out: seq<Write>, peerOut': nat)
    requires cfg.modulus >= 2 && SkewEnd(cfg, x, e, peerOut)
    requires (out == [] && peerOut' == peerOut) ||
             (|out| == 1 && peerOut' == (if out[0].WSeq? then peerOut + 1 else peerOut) &&
              (out[0].WSeq? ==> out[0].q == (peerOut + 1) % cfg.modulus))
    ensures SkewEnd(cfg, x, e.(inbox := e.inbox + out), peerOut')
  {
    if out == [] {
      assert e.inbox + out == e.inbox;
    } else {
      NumberedAppend(cfg.modulus, e.arrived.n, e.inbox, peerOut, out[0]);
      assert out == [out[0]];
    }
  }

  lemma LandSkew(cfg: Config, x: Side, e: End, peerOut: nat)
    requires cfg.modulus >= 2 && SkewEnd(cfg, x, e, peerOut) && e.inbox != []
    ensures SkewEnd(cfg, x, Land(e), peerOut)
  {
    SuccessorWraps(e.arrived.n, cfg.modulus);
  }

  lemma SkewBounds(cfg: Config, s: State)
    requires cfg.modulus >= 2 && SkewInv(cfg, s)
    ensures s.tx.comp <= s.tx.arrived.n <= s.rx.out.n <= s.rx.comp + 1
    ensures s.rx.comp <= s.rx.arrived.n <= s.tx.out.n <= s.tx.comp + 1
  {
    NumberedBound(cfg.modulus, s.tx.arrived.n, s.tx.inbox, s.rx.out.n);
    NumberedBound(cfg.modulus, s.rx.arrived.n, s.rx.inbox, s.tx.out.n);
  }

  lemma StepKeepsSkew(cfg: Config, s: State, st: Step)
    requires cfg.modulus >= 2 && SkewInv(cfg, s) && Enabled(cfg, s, st)
    ensures SkewInv(cfg, Next(cfg, s, st))
  {
    match st
    case Core(x) => CoreStepKeepsSkew(cfg, s, x);
    case Arrive(x) => ArriveKeepsSkew(cfg, s, x);
    case Store(_, _, _) =>
    case Misuse(_) =>
  }

  lemma ArriveKeepsSkew(cfg: Config, s: State, x: Side)
    requires cfg.modulus >= 2 && SkewInv(cfg, s) && At(s, x).inbox != []
    ensures SkewInv(cfg, Next(cfg, s, Arrive(x)))
  {
    LandSkew(cfg, x, At(s, x), At(s, Peer(x)).out.n);
    assert Land(At(s, x)).out == At(s, x).out;
  }

  lemma CoreStepKeepsSkew(cfg: Config, s: State, x: Side)
    requires cfg.modulus >= 2 && SkewInv(cfg, s) && CanAct(cfg, x, At(s, x))
    ensures SkewInv(cfg, Next(cfg, s, Core(x)))
  {
    hide Numbered, Act;
    SkewBounds(cfg, s);
    DecidesExactly(cfg, s, x);
    var e, p := At(s, x), At(s, Peer(x));
    var move := Act(cfg, x, e, s.mem);
    ActSkew(cfg, x, e, s.mem);
    ActKeepsInbox(cfg, x, e, s.mem);
    ActNumbers(cfg, x, e, s.mem);
    PeerExtends(cfg, Peer(x), p, e.out.n, move.out, move.me.out.n);
    var s' := Next(cfg, s, Core(x));
    assert At(s', x) == move.me && At(s', Peer(x)) == p.(inbox := p.inbox + move.out);
    assert SkewEnd(cfg, x, At(s', x), p.out.n);
  }

  lemma InitSkew(cfg: Config, mem: seq<Byte>)
    requires cfg.modulus >= 2
    ensures SkewInv(cfg, Init(mem))
  {
    ModUnique(0, 0, 0, cfg.modulus);
  }

  /** The skew invariant holds throughout every run of every two programs. */
  lemma {:induction false} RunKeepsSkew(cfg: Config, s: State, steps: seq<Step>)
    requires cfg.modulus >= 2 && SkewInv(cfg, s) && Run(cfg, s, steps)
    ensures SkewInv(cfg, Exec(cfg, s, steps))
    decreases |steps|
  {
    if steps != [] {
      StepKeepsSkew(cfg, s, steps[0]);
      RunKeepsSkew(cfg, Next(cfg, s, steps[0]), steps[1..]);
    }
  }

  // ----- the results for every run

  /** In every reachable state the two ends have issued, and completed, within one phase of each
      other, no end has completed a phase that its peer has not issued, and both wait loops and the
      readiness test decide on the rolled-over words exactly what they would decide on unbounded
      counts. Any modulus of two or more will do. */
  lemma SkewTheorem(cfg: Config, mem: seq<Byte>, steps: seq<Step>)
    requires cfg.modulus >= 2 && Run(cfg, Init(mem), steps)
    ensures var s := Exec(cfg, Init(mem), steps);
            && s.tx.out.n <= s.rx.out.n + 1 && s.rx.out.n <= s.tx.out.n + 1
            && s.tx.comp <= s.rx.comp + 1 && s.rx.comp <= s.tx.comp + 1
            && s.tx.comp <= s.rx.out.n && s.rx.comp <= s.tx.out.n
    ensures var s := Exec(cfg, Init(mem), steps);
            forall x :: Waiting(At(s, x)) ==>
              (At(s, x).seqFromPeer == At(s, x).newSeq <==> At(s, x).arrived.n == At(s, x).out.n)
    ensures var s := Exec(cfg, Init(mem), steps);
            forall x :: At(s, x).pc.Idle? ==> (Ready(cfg, At(s, x)) <==> At(s, x).arrived.n == At(s, x).comp + 1)
  {
    InitSkew(cfg, mem);
    RunKeepsSkew(cfg, Init(mem), steps);
    var s := Exec(cfg, Init(mem), steps);
    SkewBounds(cfg, s);
    forall x: Side
      ensures Waiting(At(s, x)) ==>
                (At(s, x).seqFromPeer == At(s, x).newSeq <==> At(s, x).arrived.n == At(s, x).out.n)
      ensures At(s, x).pc.Idle? ==> (Ready(cfg, At(s, x)) <==> At(s, x).arrived.n == At(s, x).comp + 1)
    {
      DecidesExactly(cfg, s, x);
    }
  }

  lemma DecidesExactly(cfg: Config, s: State, x: Side)
    requires cfg.modulus >= 2 && SkewInv(cfg, s)
    ensures Waiting(At(s, x)) ==>
              (At(s, x).seqFromPeer == At(s, x).newSeq <==> At(s, x).arrived.n == At(s, x).out.n)
    ensures At(s, x).pc.Idle? ==> (Ready(cfg, At(s, x)) <==> At(s, x).arrived.n == At(s, x).comp + 1)
  {
    SkewBounds(cfg, s);
    var e := At(s, x);
    if Waiting(e) { RolloverExact(e.arrived.n, e.out.n, cfg.modulus); }
    if e.pc.Idle? { IdleDecides(cfg, x, e, At(s, Peer(x)).out.n); }
  }

  /** One end between calls, of whose peer at most one phase that this end has not completed has taken
      effect: the test tells whether one has. */
  lemma IdleDecides(cfg: Config, x: Side, e: End, peerOut: nat)
    requires cfg.modulus >= 2 && SkewEnd(cfg, x, e, peerOut) && e.pc.Idle? && e.arrived.n <= e.comp + 1
    ensures Ready(cfg, e) <==> e.arrived.n == e.comp + 1
  {
    SuccessorWraps(e.comp, cfg.modulus);
    RolloverExact(e.arrived.n, e.comp + 1, cfg.modulus);
  }

  /** A sequence word of the peer has been issued and is not yet in effect. */
  predicate SequenceOnItsWay(e: End) {
    exists i :: 0 <= i < |e.inbox| && e.inbox[i].WSeq?
  }

  lemma {:induction false} NumberedExact(m: nat, a: nat, q: seq<Write>, total: nat)
    requires m > 0 && Numbered(m, a, q, total)
    ensures a == total <==> forall i :: 0 <= i < |q| ==> !q[i].WSeq?
    decreases |q|
  {
    if q != [] {
      if q[0].WSeq? {
        NumberedBound(m, a + 1, q[1..], total);
      } else {
        NumberedExact(m, a, q[1..], total);
        assert forall i :: 0 < i < |q| ==> q[i] == q[1..][i - 1];
      }
    }
  }

  /** Readiness is exact in every run: between calls the peer has issued either as many phases as this
      end has completed, or one more; the test says which, as soon as the peer's sequence words have
      taken effect. */
  lemma ReadyTheorem(cfg: Config, mem: seq<Byte>, steps: seq<Step>, x: Side)
    requires cfg.modulus >= 2 && Run(cfg, Init(mem), steps)
    requires At(Exec(cfg, Init(mem), steps), x).pc.Idle?
    ensures var s := Exec(cfg, Init(mem), steps);
            var e, issued := At(s, x), At(s, Peer(x)).out.n;
            && (issued == e.comp || issued == e.comp + 1)
            && (Ready(cfg, e) <==> issued == e.comp + 1 && !SequenceOnItsWay(e))
  {
    InitSkew(cfg, mem);
    RunKeepsSkew(cfg, Init(mem), steps);
    var s := Exec(cfg, Init(mem), steps);
    SkewBounds(cfg, s);
    IdleDecides(cfg, x, At(s, x), At(s, Peer(x)).out.n);
    NumberedExact(cfg.modulus, At(s, x).arrived.n, At(s, x).inbox, At(s, Peer(x)).out.n);
  }

  // ----- being overtaken

  /** The peer's next sequence word arrived before this waiter looked at the one it waits for. */
  predicate Lapped(e: End) {
    Waiting(e) && e.arrived.n > e.out.n
  }

  /** A lapped end never leaves its wait, and neither does its peer: no step of any kind changes
      the position of either. */
  lemma LappedIsFinal(cfg: Config, s: State, st: Step, x: Side)
    requires cfg.modulus >= 2 && SkewInv(cfg, s) && Lapped(At(s, x)) && Enabled(cfg, s, st)
    ensures !st.Core? && Waiting(At(s, Peer(x)))
    ensures var s' := Next(cfg, s, st);
            && Lapped(At(s', x))
            && forall y :: At(s', y).pc == At(s, y).pc && At(s', y).next == At(s, y).next
                           && At(s', y).log == At(s, y).log
  {
    hide Numbered, Act;
    SkewBounds(cfg, s);
    DecidesExactly(cfg, s, x);
    DecidesExactly(cfg, s, Peer(x));
    if st.Arrive? { LandOnlyArrives(At(s, st.x)); }
  }

  lemma LandOnlyArrives(e: End)
    requires e.inbox != []
    ensures var e' := Land(e);
            e'.pc == e.pc && e'.next == e.next && e'.log == e.log && e'.out == e.out && e'.arrived.n >= e.arrived.n
  {
  }

  lemma {:induction false} LappedForever(cfg: Config, s: State, steps: seq<Step>, x: Side)
    requires cfg.modulus >= 2 && SkewInv(cfg, s) && Lapped(At(s, x)) && Run(cfg, s, steps)
    ensures var s' := Exec(cfg, s, steps);
            && Lapped(At(s', x))
            && forall y :: At(s', y).pc == At(s, y).pc && At(s', y).next == At(s, y).next
                           && At(s', y).log == At(s, y).log
    decreases |steps|
  {
    if steps != [] {
      LappedIsFinal(cfg, s, steps[0], x);
      StepKeepsSkew(cfg, s, steps[0]);
      LappedForever(cfg, Next(cfg, s, steps[0]), steps[1..], x);
    }
  }

  predicate ProtocolStep(st: Step) {
    st.Core? || st.Arrive?
  }

  /** Neither core can move and nothing is on its way. */
  ghost predicate Stuck(cfg: Config, s: State) {
    forall st :: ProtocolStep(st) ==> !Enabled(cfg, s, st)
  }

  /** With both ends inside a wait and nothing on its way, the system is stuck exactly when one of
      them has been lapped; and never are both. */
  lemma StuckExactly(cfg: Config, s: State)
    requires cfg.modulus >= 2 && SkewInv(cfg, s) && Waiting(s.tx) && Waiting(s.rx)
    ensures Stuck(cfg, s) <==> s.tx.inbox == [] && s.rx.inbox == [] && (Lapped(s.tx) || Lapped(s.rx))
    ensures !(Lapped(s.tx) && Lapped(s.rx))
  {
    SkewBounds(cfg, s);
    DecidesExactly(cfg, s, Tx);
    DecidesExactly(cfg, s, Rx);
    assert Enabled(cfg, s, Core(Tx)) <==> s.tx.arrived.n == s.tx.out.n;
    assert Enabled(cfg, s, Core(Rx)) <==> s.rx.arrived.n == s.rx.out.n;
    assert Enabled(cfg, s, Arrive(Tx)) <==> s.tx.inbox != [];
    assert Enabled(cfg, s, Arrive(Rx)) <==> s.rx.inbox != [];
    forall st | ProtocolStep(st) ensures st in {Core(Tx), Core(Rx), Arrive(Tx), Arrive(Rx)} {
      match st case Core(x) => assert x == Tx || x == Rx; case Arrive(x) => assert x == Tx || x == Rx;
    }
  }
}
