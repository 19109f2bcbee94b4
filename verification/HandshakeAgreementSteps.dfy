/** Every step in which no control word misleads its reader keeps the two ends in agreement. */
module HandshakeAgreementSteps {
  import opened CopyPlan
  import opened Handshake
  import opened HandshakeSkew
  import opened Rendezvous
  import opened HandshakeAgreement

  // ----- one core's step

  /** What a core needs from the peer for its next step to be the right one. */
  predicate Informed(cfg: Config, x: Side, e: End) {
    var k := e.next;
    && (e.pc.GetCtl? ==> ControlOk(cfg, x, k, e.ctlFromPeer))
    && (e.pc.GetDest? || e.pc.GetAlign? ==> k < |cfg.rxCalls| && e.addrFromPeer == Buffer(cfg, Rx, cfg.rxCalls[k]))
    && (Waiting(e) ==> e.arrived.n == e.out.n)
  }

  lemma CoreIsInformed(cfg: Config, s: State, x: Side)
    requires Linked(cfg, s) && CanAct(cfg, x, At(s, x))
    ensures Informed(cfg, x, At(s, x))
  {
    DecidesExactly(cfg, s, x);
    if At(s, x).pc.GetCtl? { ControlAnswers(cfg, s, x); }
    if x.Tx? && Sending(s.tx.pc) { AddressIsPartners(cfg, s); }
  }

  /** Going on after the first phase, or not, is what the pair of calls says. */
  lemma DecisionIsJoint(cfg: Config, x: Side, e: End, mem: seq<Byte>)
    requires cfg.modulus >= 2 && CanAct(cfg, x, e) && e.pc.GetCtl? && Informed(cfg, x, e)
    ensures e.next < |cfg.txCalls| && e.next < |cfg.rxCalls|
    ensures var me := Act(cfg, x, e, mem).me;
            && (Phases(cfg, e.next) == 2 <==> !me.pc.Idle?)
            && (!me.pc.Idle? ==> me.pc == (if x.Tx? then GetDest else PutSeq2) && me.dest == e.ctlFromPeer)
  {
  }

  lemma ActPosition(cfg: Config, x: Side, e: End, mem: seq<Byte>)
    requires cfg.modulus >= 2 && Position(cfg, x, e) && CanAct(cfg, x, e) && Informed(cfg, x, e)
    ensures Position(cfg, x, Act(cfg, x, e, mem).me)
  {
    hide Plan, Slice, WordAligned, Buffer;
    if e.pc.GetCtl? { DecisionPosition(cfg, x, e, mem); }
  }

  lemma DecisionPosition(cfg: Config, x: Side, e: End, mem: seq<Byte>)
    requires cfg.modulus >= 2 && Position(cfg, x, e) && CanAct(cfg, x, e) && Informed(cfg, x, e) && e.pc.GetCtl?
    ensures Position(cfg, x, Act(cfg, x, e, mem).me)
  {
    hide Plan, Slice, WordAligned, Buffer;
    BaseMono(cfg, e.next, e.next + 1);
    DecisionIsJoint(cfg, x, e, mem);
  }

  lemma ActOutBytes(cfg: Config, x: Side, e: End, mem: seq<Byte>)
    requires cfg.modulus >= 2 && Place(cfg, x, e) && CanAct(cfg, x, e) && Informed(cfg, x, e)
    requires Learned(cfg, x, e)
    requires BuffersFit(cfg, x, |mem|)
    ensures OutBytes(cfg, x, Act(cfg, x, e, mem).me)
  {
    hide Plan;
    match e.pc
    case GetCtl => DecisionIsJoint(cfg, x, e, mem);
    case GetAlign =>
      var src := Buffer(cfg, x, CallOf(cfg, x, e));
      PlanCovers(WordAligned(src, e.addrFromPeer), src, e.dest, Size(CallOf(cfg, x, e)));
    case Copy =>
      if e.plan != [] { TilesHead(e.plan, e.out.d, Size(CallOf(cfg, x, e))); }
    case _ =>
  }

  lemma ActLearned(cfg: Config, x: Side, e: End, mem: seq<Byte>)
    requires cfg.modulus >= 2 && Place(cfg, x, e) && CanAct(cfg, x, e)
    requires Informed(cfg, x, e) && Learned(cfg, x, e)
    ensures Learned(cfg, x, Act(cfg, x, e, mem).me)
  {
    if e.pc.GetCtl? { DecisionIsJoint(cfg, x, e, mem); }
    if e.pc.GetAlign? {
      var src := Buffer(cfg, x, CallOf(cfg, x, e));
      PlanCovers(WordAligned(src, e.addrFromPeer), src, e.dest, Size(CallOf(cfg, x, e)));
    }
  }

  /** Whatever a core writes is legal at that point of its program. */
  lemma ActLegal(cfg: Config, x: Side, e: End, mem: seq<Byte>, sent: seq<seq<Byte>>)
    requires cfg.modulus >= 2 && Place(cfg, x, e) && SkewCore(cfg, x, e) && CanAct(cfg, x, e)
    requires Informed(cfg, x, e) && Learned(cfg, x, e)
    requires x.Tx? ==> sent == e.snaps && TxBuffer(cfg, e, mem) && SnapSizes(cfg.txCalls, sent)
    requires BuffersFit(cfg, x, |mem|)
    ensures var move := Act(cfg, x, e, mem);
            (move.out == [] && move.me.out == e.out) ||
            (|move.out| == 1 && move.me.out == After(e.out, move.out[0])
             && Legal(cfg, x, sent, e.out, move.out[0]))
  {
    hide Plan, Slice, LegalData;
    WhereOut(cfg, x, e);
    if e.pc.Copy? && e.plan != [] { CopyLegal(cfg, e, mem); }
  }

  lemma CopyLegal(cfg: Config, e: End, mem: seq<Byte>)
    requires cfg.modulus >= 2 && Place(cfg, Tx, e) && SkewCore(cfg, Tx, e) && CanAct(cfg, Tx, e)
    requires e.pc.Copy? && e.plan != [] && Learned(cfg, Tx, e)
    requires TxBuffer(cfg, e, mem) && SnapSizes(cfg.txCalls, e.snaps)
    requires var c := CallOf(cfg, Tx, e); Buffer(cfg, Tx, c) + Size(c) <= |mem|
    ensures Legal(cfg, Tx, e.snaps, e.out, Act(cfg, Tx, e, mem).out[0])
    ensures Act(cfg, Tx, e, mem).me.out == After(e.out, Act(cfg, Tx, e, mem).out[0])
  {
    var c, a := CallOf(cfg, Tx, e), e.plan[0];
    TilesHead(e.plan, e.out.d, Size(c));
    SlicePart(mem, Buffer(cfg, Tx, c), Size(c), a.offset, a.width);
    var bytes := Slice(mem, Buffer(cfg, Tx, c) + a.offset, a.width);
    assert LegalData(cfg, e.snaps[e.next], e.out, e.dest + a.offset, bytes);
  }

  lemma SlicePart(mem: seq<Byte>, at: nat, n: nat, off: nat, width: nat)
    requires at + n <= |mem| && off + width <= n
    ensures |Slice(mem, at, n)| == n
    ensures |Slice(mem, at + off, width)| == width
    ensures Slice(mem, at + off, width) == Slice(mem, at, n)[off..off + width]
  {
  }

  // ----- the writes on their way

  /** Until an end has published its phase, its peer cannot be past the same call. */
  lemma PeerNotAhead(cfg: Config, s: State, x: Side)
    requires Linked(cfg, s) && BeforePublish(At(s, x).pc)
    ensures At(s, x).arrived.ctls <= At(s, x).next + 1
  {
    var e, p := At(s, x), At(s, Peer(x));
    SkewBounds(cfg, s);
    WhereOut(cfg, x, e);
    WhereOut(cfg, Peer(x), p);
    LeadsMono(cfg, Peer(x), s.tx.snaps, e.arrived, e.inbox, p.out);
    if p.next > e.next { BaseMono(cfg, e.next, p.next); }
  }

  lemma AnswerIsPartners(cfg: Config, x: Side, e: End, mem: seq<Byte>)
    requires cfg.modulus >= 2 && Place(cfg, x, e) && SkewCore(cfg, x, e) && CanAct(cfg, x, e) && Informed(cfg, x, e)
    requires GoodView(cfg, Peer(x), e.arrived) && (AnswerPending(e) ==> AnswerOk(cfg, x, e.next, e.arrived.ctls))
    requires BeforePublish(e.pc) ==> e.arrived.ctls <= e.next + 1
    ensures var me := Act(cfg, x, e, mem).me;
            AnswerPending(me) ==> AnswerOk(cfg, x, me.next, me.arrived.ctls)
  {
    if e.pc.PutSeq? {
      WhereOut(cfg, x, e);
      ArrivedCall(cfg, Peer(x), e.arrived, e.next);
    }
  }

  lemma HeardMe(cfg: Config, x: Side, e: End, me: End, sent: seq<seq<Byte>>, peerOut: View)
    requires Heard(cfg, x, e, sent, peerOut)
    requires me.inbox == e.inbox && me.arrived == e.arrived
    requires me.ctlFromPeer == e.ctlFromPeer && me.addrFromPeer == e.addrFromPeer
    requires AnswerPending(me) ==> AnswerOk(cfg, x, me.next, me.arrived.ctls)
    ensures Heard(cfg, x, me, sent, peerOut)
  {
  }

  lemma HeardPeer(cfg: Config, x: Side, p: End, sent: seq<seq<Byte>>, out: seq<Write>, was: View, now: View)
    requires Heard(cfg, Peer(x), p, sent, was)
    requires (out == [] && now == was) ||
             (|out| == 1 && now == After(was, out[0]) && Legal(cfg, x, sent, was, out[0]))
    ensures Heard(cfg, Peer(x), p.(inbox := p.inbox + out), sent, now)
  {
    if out == [] {
      assert p.inbox + out == p.inbox;
    } else {
      LeadsAppend(cfg, x, sent, p.arrived, p.inbox, was, out[0]);
      assert out == [out[0]];
    }
  }

  lemma HeardMore(cfg: Config, x: Side, e: End, sent: seq<seq<Byte>>, more: seq<seq<Byte>>, peerOut: View)
    requires Heard(cfg, x, e, sent, peerOut)
    ensures Heard(cfg, x, e, sent + more, peerOut)
  {
    LeadsSentMore(cfg, Peer(x), sent, more, e.arrived, e.inbox, peerOut);
  }

  /** A step adds at most the snapshot of the call it begins. */
  lemma ActSnaps(cfg: Config, x: Side, e: End, mem: seq<Byte>)
    requires cfg.modulus >= 2 && CanAct(cfg, x, e)
    ensures Act(cfg, x, e, mem).me.snaps
            == e.snaps + (var c := CallOf(cfg, x, e);
                          if e.pc.Idle? then [Slice(mem, Buffer(cfg, x, c), Size(c))] else [])
  {
  }

  /** What a step must look like, whatever it is, for the two ends to stay linked. */
  predicate SoundMove(cfg: Config, x: Side, e: End, sent: seq<seq<Byte>>, move: Move) {
    && Place(cfg, x, move.me)
    && move.me.inbox == e.inbox && move.me.arrived == e.arrived
    && move.me.ctlFromPeer == e.ctlFromPeer && move.me.addrFromPeer == e.addrFromPeer
    && (AnswerPending(move.me) ==> AnswerOk(cfg, x, move.me.next, move.me.arrived.ctls))
    && e.snaps <= move.me.snaps
    && ((move.out == [] && move.me.out == e.out) ||
        (|move.out| == 1 && move.me.out == After(e.out, move.out[0]) && Legal(cfg, x, sent, e.out, move.out[0])))
  }

  lemma EndsHeard(cfg: Config, s: State, x: Side)
    requires Linked(cfg, s)
    ensures Heard(cfg, x, At(s, x), s.tx.snaps, At(s, Peer(x)).out)
    ensures Heard(cfg, Peer(x), At(s, Peer(x)), s.tx.snaps, At(s, x).out)
  {
    hide Heard, SkewInv, Place;
  }

  lemma SoundMoveHeard(cfg: Config, s: State, x: Side, move: Move)
    requires Linked(cfg, s) && SoundMove(cfg, x, At(s, x), s.tx.snaps, move)
    ensures var s' := Settle(s, x, move);
            Heard(cfg, x, At(s', x), s'.tx.snaps, At(s', Peer(x)).out)
            && Heard(cfg, Peer(x), At(s', Peer(x)), s'.tx.snaps, At(s', x).out)
  {
    hide Leads, Legal, GoodView, Place, Linked;
    assert Heard(cfg, x, At(s, x), s.tx.snaps, At(s, Peer(x)).out)
           && Heard(cfg, Peer(x), At(s, Peer(x)), s.tx.snaps, At(s, x).out) by { EndsHeard(cfg, s, x); }
    var e, p, s' := At(s, x), At(s, Peer(x)), Settle(s, x, move);
    HeardMe(cfg, x, e, move.me, s.tx.snaps, p.out);
    HeardPeer(cfg, x, p, s.tx.snaps, move.out, e.out, move.me.out);
    var more := s'.tx.snaps[|s.tx.snaps|..];
    assert s'.tx.snaps == s.tx.snaps + more;
    HeardMore(cfg, x, move.me, s.tx.snaps, more, p.out);
    HeardMore(cfg, Peer(x), p.(inbox := p.inbox + move.out), s.tx.snaps, more, move.me.out);
  }

  lemma SoundMoveKeepsLinked(cfg: Config, s: State, x: Side, move: Move)
    requires Linked(cfg, s) && SoundMove(cfg, x, At(s, x), s.tx.snaps, move) && SkewInv(cfg, Settle(s, x, move))
    ensures Linked(cfg, Settle(s, x, move))
  {
    hide Heard, SkewInv, Legal, AnswerPending;
    SoundMoveHeard(cfg, s, x, move);
    var p := At(s, Peer(x));
    assert Place(cfg, Peer(x), p.(inbox := p.inbox + move.out));
  }

  /** All that one end's step depends on. */
  predicate Prepared(cfg: Config, x: Side, e: End, mem: seq<Byte>, sent: seq<seq<Byte>>) {
    && cfg.modulus >= 2 && Place(cfg, x, e) && SkewCore(cfg, x, e)
    && Informed(cfg, x, e) && Learned(cfg, x, e)
    && GoodView(cfg, Peer(x), e.arrived) && (AnswerPending(e) ==> AnswerOk(cfg, x, e.next, e.arrived.ctls))
    && (BeforePublish(e.pc) ==> e.arrived.ctls <= e.next + 1)
    && (x.Tx? ==> sent == e.snaps && TxBuffer(cfg, e, mem) && SnapSizes(cfg.txCalls, sent))
    && BuffersFit(cfg, x, |mem|)
  }

  lemma ActIsSound(cfg: Config, x: Side, e: End, mem: seq<Byte>, sent: seq<seq<Byte>>)
    requires Prepared(cfg, x, e, mem, sent) && CanAct(cfg, x, e)
    ensures SoundMove(cfg, x, e, sent, Act(cfg, x, e, mem))
    ensures Learned(cfg, x, Act(cfg, x, e, mem).me)
  {
    ActPosition(cfg, x, e, mem);
    ActOutBytes(cfg, x, e, mem);
    ActKeepsInbox(cfg, x, e, mem);
    AnswerIsPartners(cfg, x, e, mem);
    ActSnaps(cfg, x, e, mem);
    ActLegal(cfg, x, e, mem, sent);
    ActLearned(cfg, x, e, mem);
  }

  lemma CoreIsPrepared(cfg: Config, s: State, x: Side)
    requires Linked(cfg, s) && CanAct(cfg, x, At(s, x)) && Learned(cfg, x, At(s, x)) && WellFormed(cfg, |s.mem|)
    requires TxBuffer(cfg, s.tx, s.mem) && SnapSizes(cfg.txCalls, s.tx.snaps)
    ensures Prepared(cfg, x, At(s, x), s.mem, s.tx.snaps)
  {
    CoreIsInformed(cfg, s, x);
    if BeforePublish(At(s, x).pc) { PeerNotAhead(cfg, s, x); }
  }

  lemma CoreKeepsLinked(cfg: Config, s: State, x: Side, move: Move)
    requires Linked(cfg, s) && CanAct(cfg, x, At(s, x)) && move == Act(cfg, x, At(s, x), s.mem)
    requires SoundMove(cfg, x, At(s, x), s.tx.snaps, move)
    ensures Linked(cfg, Next(cfg, s, Core(x)))
  {
    CoreStepKeepsSkew(cfg, s, x);
    SoundMoveKeepsLinked(cfg, s, x, move);
  }

  // ----- buffers and results under one core's step

  lemma ActSnapSizes(cfg: Config, x: Side, e: End, mem: seq<Byte>)
    requires cfg.modulus >= 2 && CanAct(cfg, x, e) && Position(cfg, x, e) && SnapSizes(Calls(cfg, x), e.snaps)
    requires BuffersFit(cfg, x, |mem|)
    ensures SnapSizes(Calls(cfg, x), Act(cfg, x, e, mem).me.snaps)
  {
    ActSnaps(cfg, x, e, mem);
  }

  lemma TxBufferKept(cfg: Config, e: End, mem: seq<Byte>)
    requires cfg.modulus >= 2 && CanAct(cfg, Tx, e) && Position(cfg, Tx, e) && TxBuffer(cfg, e, mem)
    ensures TxBuffer(cfg, Act(cfg, Tx, e, mem).me, mem)
  {
    ActSnaps(cfg, Tx, e, mem);
  }

  lemma RxBufferKept(cfg: Config, e: End, mem: seq<Byte>, sent: seq<seq<Byte>>)
    requires cfg.modulus >= 2 && CanAct(cfg, Rx, e) && Position(cfg, Rx, e) && RxBuffer(cfg, e, mem, sent)
    requires BeforePublish(e.pc) ==> Landed(cfg, e.next, e.arrived) == 0
    ensures RxBuffer(cfg, Act(cfg, Rx, e, mem).me, mem, sent)
  {
    ActSnaps(cfg, Rx, e, mem);
    ActKeepsInbox(cfg, Rx, e, mem);
  }

  /** Starting another call changes no message that has begun to land, and no result. */
  lemma PartlyMore(sent: seq<seq<Byte>>, sent': seq<seq<Byte>>, k: nat, landed: nat, before: seq<Byte>)
    requires sent <= sent' && (landed > 0 ==> k < |sent|)
    ensures PartlyReceived(sent', k, landed, before) == PartlyReceived(sent, k, landed, before)
  {
  }

  lemma ResultsMore(cfg: Config, x: Side, e: End, sent: seq<seq<Byte>>, sent': seq<seq<Byte>>)
    requires sent <= sent' && Results(cfg, x, e, sent)
    ensures Results(cfg, x, e, sent')
  {
    forall j | 0 <= j < e.next ensures EntryOk(cfg, x, j, e.log[j], e.snaps[j], sent') {
      assert EntryOk(cfg, x, j, e.log[j], e.snaps[j], sent);
      assert sent'[j] == sent[j];
    }
  }

  lemma LandedWasSent(cfg: Config, s: State)
    requires Linked(cfg, s)
    ensures s.rx.arrived.ctls <= |s.tx.snaps|
    ensures Landed(cfg, s.rx.next, s.rx.arrived) > 0 ==> s.rx.next < |s.tx.snaps|
  {
    LeadsMono(cfg, Tx, s.tx.snaps, s.rx.arrived, s.rx.inbox, s.tx.out);
  }

  /** Return value and error of a returning call. */
  lemma ReturnValues(cfg: Config, x: Side, e: End, mem: seq<Byte>)
    requires cfg.modulus >= 2 && Position(cfg, x, e) && CanAct(cfg, x, e) && (e.pc.GetCtl? || e.pc.Await2?)
    requires Informed(cfg, x, e) && Learned(cfg, x, e) && Act(cfg, x, e, mem).me.pc.Idle?
    ensures e.next < |cfg.txCalls| && e.next < |cfg.rxCalls|
    ensures var me, c := Act(cfg, x, e, mem).me, CallOf(cfg, x, e);
            var theirs := Calls(cfg, Peer(x))[e.next];
            me.next == e.next + 1 &&
            me.log == e.log + [Entry(ExpectedReturn(x, c, theirs), ExpectedError(x, c, theirs),
                                     Slice(mem, Buffer(cfg, x, c), Size(c)))]
  {
    if e.pc.GetCtl? { DecisionIsJoint(cfg, x, e, mem); }
  }

  /** The contents of the buffer of a returning call. */
  lemma ReturnBuffer(cfg: Config, x: Side, e: End, mem: seq<Byte>, sent: seq<seq<Byte>>)
    requires Prepared(cfg, x, e, mem, sent) && CanAct(cfg, x, e) && (e.pc.GetCtl? || e.pc.Await2?)
    requires e.next < |cfg.txCalls| && e.next < |cfg.rxCalls| && e.next < |sent|
    requires SnapSizes(cfg.txCalls, sent) && SnapSizes(Calls(cfg, x), e.snaps)
    requires x.Rx? ==> RxBuffer(cfg, e, mem, sent)
    requires x.Rx? && e.pc.Await2? ==> Landed(cfg, e.next, e.arrived) == Full(cfg, Tx, e.next)
    requires e.pc.GetCtl? ==> Phases(cfg, e.next) == 1
    ensures var k, c := e.next, CallOf(cfg, x, e);
            Slice(mem, Buffer(cfg, x, c), Size(c))
            == (if x.Tx? then e.snaps[k] else Received(cfg.txCalls[k], cfg.rxCalls[k], sent[k], e.snaps[k]))
  {
    var k := e.next;
    if x.Rx? {
      if e.pc.GetCtl? {
        assert Landed(cfg, k, e.arrived) == 0;
      } else {
        assert Moves(cfg.txCalls[k], cfg.rxCalls[k]);
        assert sent[k][..|sent[k]|] == sent[k];
      }
    }
  }

  /** The entry recorded by a returning call is the one the rendezvous prescribes. */
  lemma ReturnIsRight(cfg: Config, x: Side, e: End, mem: seq<Byte>, sent: seq<seq<Byte>>)
    requires Prepared(cfg, x, e, mem, sent) && CanAct(cfg, x, e) && (e.pc.GetCtl? || e.pc.Await2?)
    requires SnapSizes(cfg.txCalls, sent) && SnapSizes(Calls(cfg, x), e.snaps) && e.next < |sent|
    requires x.Rx? ==> RxBuffer(cfg, e, mem, sent)
    requires x.Rx? && e.pc.Await2? ==> Landed(cfg, e.next, e.arrived) == Full(cfg, Tx, e.next)
    requires Act(cfg, x, e, mem).me.pc.Idle?
    ensures var me := Act(cfg, x, e, mem).me;
            me.next == e.next + 1 && |me.log| == me.next && me.log[..e.next] == e.log
            && EntryOk(cfg, x, e.next, me.log[e.next], e.snaps[e.next], sent)
  {
    ReturnValues(cfg, x, e, mem);
    if e.pc.GetCtl? { DecisionIsJoint(cfg, x, e, mem); }
    ReturnBuffer(cfg, x, e, mem, sent);
  }

  lemma ResultsKept(cfg: Config, x: Side, e: End, mem: seq<Byte>, sent: seq<seq<Byte>>)
    requires Prepared(cfg, x, e, mem, sent) && CanAct(cfg, x, e) && Results(cfg, x, e, sent)
    requires SnapSizes(cfg.txCalls, sent) && SnapSizes(Calls(cfg, x), e.snaps)
    requires (e.pc.GetCtl? || e.pc.Await2?) ==> e.next < |sent|
    requires x.Rx? ==> RxBuffer(cfg, e, mem, sent)
    requires x.Rx? && e.pc.Await2? ==> Landed(cfg, e.next, e.arrived) == Full(cfg, Tx, e.next)
    ensures Results(cfg, x, Act(cfg, x, e, mem).me, sent)
  {
    hide Act, EntryOk, Prepared, RxBuffer, Results, Landed, Full;
    PreparedFacts(cfg, x, e, mem, sent);
    var me := Act(cfg, x, e, mem).me;
    ActSnaps(cfg, x, e, mem);
    if (e.pc.GetCtl? || e.pc.Await2?) && me.pc.Idle? {
      ReturnIsRight(cfg, x, e, mem, sent);
      ResultsGrow(cfg, x, e, me, sent);
    } else {
      NoReturn(cfg, x, e, mem);
      ResultsSame(cfg, x, e, me, sent);
    }
  }

  lemma PreparedFacts(cfg: Config, x: Side, e: End, mem: seq<Byte>, sent: seq<seq<Byte>>)
    requires Prepared(cfg, x, e, mem, sent)
    ensures cfg.modulus >= 2
    ensures !e.pc.Idle? ==> e.next < |e.snaps|
  {
  }

  lemma ResultsGrow(cfg: Config, x: Side, e: End, me: End, sent: seq<seq<Byte>>)
    requires Results(cfg, x, e, sent) && e.next < |e.snaps| && e.snaps <= me.snaps
    requires me.next == e.next + 1 && |me.log| == me.next && me.log[..e.next] == e.log
    requires EntryOk(cfg, x, e.next, me.log[e.next], e.snaps[e.next], sent)
    ensures Results(cfg, x, me, sent)
  {
    hide EntryOk;
    forall j | 0 <= j < me.next ensures EntryOk(cfg, x, j, me.log[j], me.snaps[j], sent) {
      if j < e.next { assert EntryOk(cfg, x, j, e.log[j], e.snaps[j], sent) && me.log[j] == e.log[j]; }
    }
  }

  lemma ResultsSame(cfg: Config, x: Side, e: End, me: End, sent: seq<seq<Byte>>)
    requires Results(cfg, x, e, sent) && e.snaps <= me.snaps && me.next == e.next && me.log == e.log
    ensures Results(cfg, x, me, sent)
  {
    hide EntryOk;
    forall j | 0 <= j < me.next ensures EntryOk(cfg, x, j, me.log[j], me.snaps[j], sent) {
      assert EntryOk(cfg, x, j, e.log[j], e.snaps[j], sent);
    }
  }

  lemma NoReturn(cfg: Config, x: Side, e: End, mem: seq<Byte>)
    requires cfg.modulus >= 2 && CanAct(cfg, x, e)
    requires !((e.pc.GetCtl? || e.pc.Await2?) && Act(cfg, x, e, mem).me.pc.Idle?)
    ensures var me := Act(cfg, x, e, mem).me; me.next == e.next && me.log == e.log
  {
  }

  lemma CoreKeepsContents(cfg: Config, s: State, x: Side)
    requires Agree(cfg, s) && CanAct(cfg, x, At(s, x))
    requires Prepared(cfg, x, At(s, x), s.mem, s.tx.snaps)
    requires Learned(cfg, x, Act(cfg, x, At(s, x), s.mem).me)
    ensures Contents(cfg, Next(cfg, s, Core(x)))
  {
    LandedWasSent(cfg, s);
    if x.Tx? { TxContents(cfg, s, Act(cfg, Tx, s.tx, s.mem)); } else { RxContents(cfg, s, Act(cfg, Rx, s.rx, s.mem)); }
  }

  lemma TxContents(cfg: Config, s: State, move: Move)
    requires Contents(cfg, s) && Prepared(cfg, Tx, s.tx, s.mem, s.tx.snaps) && CanAct(cfg, Tx, s.tx)
    requires move == Act(cfg, Tx, s.tx, s.mem) && Learned(cfg, Tx, move.me)
    requires Landed(cfg, s.rx.next, s.rx.arrived) > 0 ==> s.rx.next < |s.tx.snaps|
    ensures Contents(cfg, Settle(s, Tx, move))
  {
    var e := s.tx;
    ActSnaps(cfg, Tx, e, s.mem);
    ActSnapSizes(cfg, Tx, e, s.mem);
    TxBufferKept(cfg, e, s.mem);
    ResultsKept(cfg, Tx, e, s.mem, e.snaps);
    ResultsMore(cfg, Tx, move.me, e.snaps, move.me.snaps);
    ResultsMore(cfg, Rx, s.rx, e.snaps, move.me.snaps);
    if !s.rx.pc.Idle? {
      PartlyMore(e.snaps, move.me.snaps, s.rx.next, Landed(cfg, s.rx.next, s.rx.arrived), s.rx.snaps[s.rx.next]);
    }
    ContentsOfPeer(cfg, Tx, s.rx, move.out, move.me.snaps);
  }

  /** Writes on their way do not show. */
  lemma ContentsOfPeer(cfg: Config, x: Side, p: End, out: seq<Write>, sent: seq<seq<Byte>>)
    requires Learned(cfg, Peer(x), p) && Results(cfg, Peer(x), p, sent)
    ensures var p' := p.(inbox := p.inbox + out); Learned(cfg, Peer(x), p') && Results(cfg, Peer(x), p', sent)
  {
  }

  lemma RxContents(cfg: Config, s: State, move: Move)
    requires Agree(cfg, s) && Prepared(cfg, Rx, s.rx, s.mem, s.tx.snaps) && CanAct(cfg, Rx, s.rx)
    requires move == Act(cfg, Rx, s.rx, s.mem) && Learned(cfg, Rx, move.me)
    requires s.rx.arrived.ctls <= |s.tx.snaps|
    ensures Contents(cfg, Settle(s, Rx, move))
  {
    var e := s.rx;
    if BeforePublish(e.pc) { NothingLandedYet(cfg, s); }
    if e.pc.Await2? {
      AllLanded(cfg, s);
      WhereOut(cfg, Rx, e);
      ArrivedCall(cfg, Tx, e.arrived, e.next);
    }
    ActSnapSizes(cfg, Rx, e, s.mem);
    RxBufferKept(cfg, e, s.mem, s.tx.snaps);
    ResultsKept(cfg, Rx, e, s.mem, s.tx.snaps);
    ContentsOfPeer(cfg, Rx, s.tx, move.out, s.tx.snaps);
  }

  // ----- a write takes effect

  lemma LandAnswer(cfg: Config, x: Side, e: End, sent: seq<seq<Byte>>)
    requires cfg.modulus >= 2 && Place(cfg, x, e) && SkewCore(cfg, x, e)
    requires e.inbox != [] && Legal(cfg, Peer(x), sent, e.arrived, e.inbox[0])
    requires AnswerPending(e) ==> AnswerOk(cfg, x, e.next, e.arrived.ctls)
    requires AnswerPending(e) && e.inbox[0].WCtl? ==> Harmless(cfg, x, e.next) && Base(cfg, e.arrived.ctls) <= e.out.n
    ensures AnswerPending(Land(e)) ==> AnswerOk(cfg, x, e.next, Land(e).arrived.ctls)
  {
    if AnswerPending(Land(e)) && !AnswerPending(e) && e.inbox[0].WSeq? {
      WhereOut(cfg, x, e);
      BaseUnique(cfg, e.next, e.arrived.ctls - 1, e.arrived.n);
    }
    if AnswerPending(e) && e.inbox[0].WCtl? {
      WhereOut(cfg, x, e);
      BaseMono(cfg, e.next + 1, e.next + 2);
    }
  }

  lemma LandHeard(cfg: Config, x: Side, e: End, sent: seq<seq<Byte>>, peerOut: View)
    requires cfg.modulus >= 2 && Place(cfg, x, e) && SkewCore(cfg, x, e) && Heard(cfg, x, e, sent, peerOut)
    requires e.inbox != []
    requires AnswerPending(e) && e.inbox[0].WCtl? ==> Harmless(cfg, x, e.next) && Base(cfg, e.arrived.ctls) <= e.out.n
    ensures Heard(cfg, x, Land(e), sent, peerOut)
  {
    hide Place, SkewCore, AnswerOk, Harmless;
    GoodAfter(cfg, Peer(x), sent, e.arrived, e.inbox[0]);
    LandAnswer(cfg, x, e, sent);
  }

  lemma LandPlace(cfg: Config, x: Side, e: End, sent: seq<seq<Byte>>)
    requires e.inbox != []
    requires Place(cfg, x, e) && Learned(cfg, x, e) && Results(cfg, x, e, sent)
    ensures Place(cfg, x, Land(e)) && Learned(cfg, x, Land(e)) && Results(cfg, x, Land(e), sent)
    ensures Land(e).out == e.out && Land(e).snaps == e.snaps && Land(e).pc == e.pc && Land(e).next == e.next
  {
  }

  /** An arriving word leaves the amount that has landed as it is; arriving bytes add theirs. */
  lemma LandLanded(cfg: Config, e: End, sent: seq<seq<Byte>>)
    requires e.inbox != [] && Legal(cfg, Tx, sent, e.arrived, e.inbox[0])
    ensures !e.inbox[0].WData? ==> Landed(cfg, e.next, Land(e).arrived) == Landed(cfg, e.next, e.arrived)
  {
  }

  lemma ArriveKeepsLinked(cfg: Config, s: State, x: Side)
    requires Linked(cfg, s) && Orderly(cfg, s, Arrive(x)) && At(s, x).inbox != []
    requires Learned(cfg, x, At(s, x)) && Results(cfg, x, At(s, x), s.tx.snaps)
    ensures Linked(cfg, Next(cfg, s, Arrive(x)))
  {
    ArriveKeepsSkew(cfg, s, x);
    if At(s, x).inbox[0].WCtl? {
      ControlFollowsCalls(cfg, s, x);
      SkewBounds(cfg, s);
    }
    LandHeard(cfg, x, At(s, x), s.tx.snaps, At(s, Peer(x)).out);
    LandPlace(cfg, x, At(s, x), s.tx.snaps);
  }

  lemma PokeOutside(mem: seq<Byte>, at: nat, bytes: seq<Byte>, b: nat, n: nat)
    requires at + |bytes| <= |mem| && b + n <= |mem| && Disjoint(at, |bytes|, b, n)
    ensures Slice(Poke(mem, at, bytes), b, n) == Slice(mem, b, n)
  {
    assert forall i :: b <= i < b + n ==> Poke(mem, at, bytes)[i] == mem[i];
  }

  /** More of the message lands in its place. */
  lemma MoreLands(mem: seq<Byte>, dst: nat, n: nat, message: seq<Byte>, before: seq<Byte>, d: nat, bytes: seq<Byte>)
    requires dst + n <= |mem| && |before| == n && d + |bytes| <= |message| <= n && bytes == message[d..d + |bytes|]
    requires Slice(mem, dst, n) == message[..d] + before[d..]
    ensures Slice(Poke(mem, dst + d, bytes), dst, n) == message[..d + |bytes|] + before[d + |bytes|..]
  {
    var mem' := Poke(mem, dst + d, bytes);
    forall i | 0 <= i < n ensures Slice(mem', dst, n)[i] == (message[..d + |bytes|] + before[d + |bytes|..])[i] {
      if d <= i < d + |bytes| {
        assert mem'[dst + d..dst + d + |bytes|][i - d] == bytes[i - d];
      } else {
        assert mem'[dst + i] == mem[dst + i] == Slice(mem, dst, n)[i];
      }
    }
  }

  lemma FitsAt(cfg: Config, x: Side, memory: nat, k: nat)
    requires BuffersFit(cfg, x, memory) && k < |Calls(cfg, x)|
    ensures Buffer(cfg, x, Calls(cfg, x)[k]) + Size(Calls(cfg, x)[k]) <= memory
  {
  }

  lemma BytesReachBuffer(cfg: Config, e: End, mem: seq<Byte>, sent: seq<seq<Byte>>)
    requires e.inbox != [] && e.inbox[0].WData? && RxBuffer(cfg, e, mem, sent) && !e.pc.Idle?
    requires BuffersFit(cfg, Rx, |mem|) && SnapSizes(cfg.rxCalls, e.snaps)
    requires e.next < |sent| && e.next < |cfg.rxCalls| && e.arrived.ctls == e.next + 1
    requires LegalData(cfg, sent[e.next], e.arrived, e.inbox[0].at, e.inbox[0].bytes)
    ensures RxBuffer(cfg, Land(e), LandInMemory(mem, e.inbox[0]), sent)
  {
    hide Slice, Poke, BuffersFit, Buffer;
    var k, w, v := e.next, e.inbox[0], e.arrived;
    var r := cfg.rxCalls[k];
    assert Moves(cfg.txCalls[k], r);
    assert Buffer(cfg, Rx, r) + Size(r) <= |mem| by { FitsAt(cfg, Rx, |mem|, k); }
    assert sent[k][..0] + e.snaps[k][0..] == e.snaps[k];
    MoreLands(mem, Buffer(cfg, Rx, r), Size(r), sent[k], e.snaps[k], v.d, w.bytes);
  }

  lemma BytesMissSender(cfg: Config, e: End, mem: seq<Byte>, k: nat, message: seq<Byte>, v: View, w: Write)
    requires TxBuffer(cfg, e, mem) && WellFormed(cfg, |mem|) && w.WData?
    requires v.ctls == k + 1 <= |cfg.rxCalls| && LegalData(cfg, message, v, w.at, w.bytes)
    ensures TxBuffer(cfg, e, LandInMemory(mem, w))
  {
    var r := cfg.rxCalls[k];
    assert Moves(cfg.txCalls[k], r);
    if !e.pc.Idle? {
      var t := cfg.txCalls[e.next];
      assert Apart(cfg, t, r);
      assert Calls(cfg, Tx)[e.next] == t && Calls(cfg, Rx)[k] == r;
      PokeOutside(mem, w.at, w.bytes, Buffer(cfg, Tx, t), Size(t));
    }
  }

  lemma DataKeepsBuffers(cfg: Config, s: State)
    requires Linked(cfg, s) && WellFormed(cfg, |s.mem|) && SnapSizes(cfg.rxCalls, s.rx.snaps)
    requires TxBuffer(cfg, s.tx, s.mem) && RxBuffer(cfg, s.rx, s.mem, s.tx.snaps)
    requires s.rx.inbox != [] && s.rx.inbox[0].WData?
    ensures var mem' := LandInMemory(s.mem, s.rx.inbox[0]);
            TxBuffer(cfg, s.tx, mem') && RxBuffer(cfg, Land(s.rx), mem', s.tx.snaps)
  {
    BytesArriveInWindow(cfg, s);
    BytesReachBuffer(cfg, s.rx, s.mem, s.tx.snaps);
    BytesMissSender(cfg, s.tx, s.mem, s.rx.next, s.tx.snaps[s.rx.next], s.rx.arrived, s.rx.inbox[0]);
  }

  lemma ArriveKeepsBuffers(cfg: Config, s: State, x: Side)
    requires Linked(cfg, s) && WellFormed(cfg, |s.mem|) && SnapSizes(cfg.rxCalls, s.rx.snaps)
    requires TxBuffer(cfg, s.tx, s.mem) && RxBuffer(cfg, s.rx, s.mem, s.tx.snaps)
    requires At(s, x).inbox != []
    ensures var mem' := LandInMemory(s.mem, At(s, x).inbox[0]);
            |mem'| == |s.mem| && TxBuffer(cfg, s.tx, mem')
            && RxBuffer(cfg, if x.Rx? then Land(s.rx) else s.rx, mem', s.tx.snaps)
  {
    if x.Rx? {
      if s.rx.inbox[0].WData? { DataKeepsBuffers(cfg, s); } else { LandLanded(cfg, s.rx, s.tx.snaps); }
    } else {
      assert !s.tx.inbox[0].WData?;
    }
  }

  lemma ArriveKeepsAgree(cfg: Config, s: State, x: Side)
    requires Agree(cfg, s) && Orderly(cfg, s, Arrive(x)) && At(s, x).inbox != []
    ensures Agree(cfg, Next(cfg, s, Arrive(x)))
  {
    hide RxBuffer, Learned, Results, SnapSizes, Orderly, Place, Heard, SkewInv;
    ArriveKeepsLinked(cfg, s, x);
    LandPlace(cfg, x, At(s, x), s.tx.snaps);
    ArriveKeepsBuffers(cfg, s, x);
  }

  lemma StoreOutside(mem: seq<Byte>, at: nat, b: Byte, from: nat, n: nat)
    requires at < |mem| && !(from <= at < from + n)
    ensures Slice(mem[at := b], from, n) == Slice(mem, from, n)
  {
  }

  lemma StoreKeepsBuffers(cfg: Config, s: State, x: Side, at: nat, b: Byte)
    requires TxBuffer(cfg, s.tx, s.mem) && RxBuffer(cfg, s.rx, s.mem, s.tx.snaps)
    requires Enabled(cfg, s, Store(x, at, b))
    ensures TxBuffer(cfg, s.tx, s.mem[at := b]) && RxBuffer(cfg, s.rx, s.mem[at := b], s.tx.snaps)
  {
    var y := Peer(x);
    if !At(s, y).pc.Idle? {
      var c := CallOf(cfg, y, At(s, y));
      StoreOutside(s.mem, at, b, Buffer(cfg, y, c), Size(c));
    }
  }

  lemma LinkedSame(cfg: Config, s: State, s': State)
    requires Linked(cfg, s) && s'.tx == s.tx && s'.rx == s.rx
    ensures Linked(cfg, s')
  {
  }

  lemma StoreKeepsAgree(cfg: Config, s: State, x: Side, at: nat, b: Byte)
    requires Agree(cfg, s) && Enabled(cfg, s, Store(x, at, b))
    ensures Agree(cfg, Next(cfg, s, Store(x, at, b)))
  {
    hide TxBuffer, RxBuffer, Linked, Learned, Results, SnapSizes;
    StoreKeepsBuffers(cfg, s, x, at, b);
    LinkedSame(cfg, s, Next(cfg, s, Store(x, at, b)));
  }

  lemma CoreKeepsAgree(cfg: Config, s: State, x: Side)
    requires Agree(cfg, s) && CanAct(cfg, x, At(s, x))
    ensures Agree(cfg, Next(cfg, s, Core(x)))
  {
    CoreIsPrepared(cfg, s, x);
    ActIsSound(cfg, x, At(s, x), s.mem, s.tx.snaps);
    CoreKeepsLinked(cfg, s, x, Act(cfg, x, At(s, x), s.mem));
    CoreKeepsContents(cfg, s, x);
  }

  lemma StepKeepsAgree(cfg: Config, s: State, st: Step)
    requires Agree(cfg, s) && Enabled(cfg, s, st) && Orderly(cfg, s, st)
    ensures Agree(cfg, Next(cfg, s, st))
  {
    hide Agree, Act, Land, Settle, Orderly;
    match st
    case Core(x) => CoreKeepsAgree(cfg, s, x);
    case Arrive(x) => ArriveKeepsAgree(cfg, s, x);
    case Store(x, at, b) => StoreKeepsAgree(cfg, s, x, at, b);
    case Misuse(_) =>
  }

  lemma InitAgrees(cfg: Config, mem: seq<Byte>)
    requires WellFormed(cfg, |mem|)
    ensures Agree(cfg, Init(mem))
  {
    InitSkew(cfg, mem);
  }

  /** In no step of the schedule does a control word mislead a reader that it overtakes. */
  predicate OrderlyRun(cfg: Config, s: State, steps: seq<Step>)
    requires cfg.modulus > 0
    decreases |steps|
  {
    steps == [] || (Enabled(cfg, s, steps[0]) && Orderly(cfg, s, steps[0])
      && OrderlyRun(cfg, Next(cfg, s, steps[0]), steps[1..]))
  }

  lemma {:induction false} OrderlyRunKeepsAgree(cfg: Config, s: State, steps: seq<Step>)
    requires Agree(cfg, s) && OrderlyRun(cfg, s, steps)
    ensures Run(cfg, s, steps) && Agree(cfg, Exec(cfg, s, steps))
    decreases |steps|
  {
    if steps != [] {
      StepKeepsAgree(cfg, s, steps[0]);
      OrderlyRunKeepsAgree(cfg, Next(cfg, s, steps[0]), steps[1..]);
    }
  }
}