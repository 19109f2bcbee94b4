/** The results for whole runs of one connection: transfers behave as a rendezvous channel under
    full asynchrony, and any mix of calls stays paired when no control word misleads a reader that
    it overtakes. */
module HandshakeResults {
  import opened CopyPlan
  import opened Handshake
  import opened HandshakeSkew
  import opened Rendezvous
  import opened HandshakeAgreement
  import opened HandshakeAgreementSteps

  // ----- any mix of calls

  /** In every run in which no control word misleads a reader that it overtakes, each finished call
      returned what the pair of k-th calls prescribes, on both ends; a receive buffer holds the message in front
      of its old contents, or just those when the pair moves no data; and the calls of both ends
      used up the same number of phases. */
  lemma AgreementTheorem(cfg: Config, mem: seq<Byte>, steps: seq<Step>)
    requires WellFormed(cfg, |mem|) && OrderlyRun(cfg, Init(mem), steps)
    ensures Run(cfg, Init(mem), steps)
    ensures var s := Exec(cfg, Init(mem), steps);
            Results(cfg, Tx, s.tx, s.tx.snaps) && Results(cfg, Rx, s.rx, s.tx.snaps)
    ensures var s := Exec(cfg, Init(mem), steps);
            forall x :: At(s, x).pc.Idle? ==>
              At(s, x).out.n == At(s, x).comp == Base(cfg, At(s, x).next) && At(s, x).next == |At(s, x).log|
  {
    hide Place, Heard, Results, Init;
    InitAgrees(cfg, mem);
    OrderlyRunKeepsAgree(cfg, Init(mem), steps);
    var s := Exec(cfg, Init(mem), steps);
    ResultsCount(cfg, s);
    WhereOut(cfg, Tx, s.tx);
    WhereOut(cfg, Rx, s.rx);
  }

  lemma ResultsCount(cfg: Config, s: State)
    requires Contents(cfg, s)
    ensures |s.tx.log| == s.tx.next && |s.rx.log| == s.rx.next
  {
  }

  /** Of a send that meets a receive, either both ends are to return the size sent or both -1 with the
      receive buffer as it was. */
  lemma PrescribedTogether(t: Call, r: Call, message: seq<Byte>, before: seq<Byte>)
    requires t.Transfer? && r.Transfer? && |message| == t.size && |before| == r.size
    ensures Moves(t, r) ==> ExpectedReturn(Tx, t, r) == ExpectedReturn(Rx, r, t) == t.size
    ensures !Moves(t, r) ==> ExpectedReturn(Tx, t, r) == ExpectedReturn(Rx, r, t) == -1
    ensures !Moves(t, r) ==> Received(t, r, message, before) == before
  {
  }

  /** Failure is mutual, in every run in which no control word misleads its reader: when the k-th calls
      of both ends have returned and are a send and a receive, they returned the same, namely the size
      sent if it is positive and fits and -1 otherwise, and then the receive buffer is as it was. */
  lemma TransfersFailTogether(cfg: Config, mem: seq<Byte>, steps: seq<Step>, k: nat)
    requires WellFormed(cfg, |mem|) && OrderlyRun(cfg, Init(mem), steps)
    requires k < |cfg.txCalls| && k < |cfg.rxCalls| && cfg.txCalls[k].Transfer? && cfg.rxCalls[k].Transfer?
    ensures Run(cfg, Init(mem), steps)
    ensures var s := Exec(cfg, Init(mem), steps);
            k < |s.tx.log| && k < |s.rx.log| ==>
              && k < |s.rx.snaps|
              && s.tx.log[k].ret == s.rx.log[k].ret
                 == (if Moves(cfg.txCalls[k], cfg.rxCalls[k]) then cfg.txCalls[k].size else -1)
              && (!Moves(cfg.txCalls[k], cfg.rxCalls[k]) ==> s.rx.log[k].final == s.rx.snaps[k])
  {
    AgreementTheorem(cfg, mem, steps);
    var s := Exec(cfg, Init(mem), steps);
    if k < |s.tx.log| && k < |s.rx.log| {
      assert EntryOk(cfg, Tx, k, s.tx.log[k], s.tx.snaps[k], s.tx.snaps);
      assert EntryOk(cfg, Rx, k, s.rx.log[k], s.rx.snaps[k], s.tx.snaps);
      PrescribedTogether(cfg.txCalls[k], cfg.rxCalls[k], s.tx.snaps[k], s.rx.snaps[k]);
    }
  }

  /** The outcome of a call that met another, in full. `t` is the call of the sending end and `r` that of
      the receiving end; `mine` is the one of them that left this entry. */
  predicate Outcome(t: Call, r: Call, mine: Call, theirs: Call, e: Entry) {
    && (mine.Sync? && (theirs.Sync? || theirs.size == 0) ==> e.ret == 0 && e.error == 0)
    && (mine.Sync? && theirs.Transfer? && theirs.size > 0 ==> e.ret == -1 && e.error == -30012)
    && (mine.Transfer? && mine.size == 0 ==> e.ret == -1 && e.error == -30014)
    && (mine.Transfer? && mine.size > 0 && (theirs.Sync? || theirs.size == 0) ==> e.ret == -1 && e.error == -30012)
    && (t.Transfer? && r.Transfer? && t.size > r.size > 0 ==> e.ret == -1 && e.error == -30013)
    && (t.Transfer? && r.Transfer? && 0 < t.size <= r.size ==> e.ret == t.size && e.error == 0)
  }

  /** Return values and errors of all finished calls, pair by pair. */
  lemma OutcomesInFull(cfg: Config, mem: seq<Byte>, steps: seq<Step>, k: nat)
    requires WellFormed(cfg, |mem|) && OrderlyRun(cfg, Init(mem), steps)
    ensures Run(cfg, Init(mem), steps)
    ensures var s := Exec(cfg, Init(mem), steps);
            k < |s.tx.log| ==>
              && k < |cfg.txCalls| && k < |cfg.rxCalls|
              && Outcome(cfg.txCalls[k], cfg.rxCalls[k], cfg.txCalls[k], cfg.rxCalls[k], s.tx.log[k])
    ensures var s := Exec(cfg, Init(mem), steps);
            k < |s.rx.log| ==>
              && k < |cfg.txCalls| && k < |cfg.rxCalls|
              && Outcome(cfg.txCalls[k], cfg.rxCalls[k], cfg.rxCalls[k], cfg.txCalls[k], s.rx.log[k])
  {
    AgreementTheorem(cfg, mem, steps);
    var s := Exec(cfg, Init(mem), steps);
    if k < |s.tx.log| { assert EntryOk(cfg, Tx, k, s.tx.log[k], s.tx.snaps[k], s.tx.snaps); }
    if k < |s.rx.log| { assert EntryOk(cfg, Rx, k, s.rx.log[k], s.rx.snaps[k], s.tx.snaps); }
  }

  /** What goes wrong otherwise: a control word that overtakes a pending answer is the one of the
      peer's next call, and it is what the reader will decide on. */
  lemma OvertakenReadsNextCall(cfg: Config, s: State, x: Side)
    requires Linked(cfg, s) && Enabled(cfg, s, Arrive(x)) && !CtlPrompt(s, Arrive(x))
    ensures var e', k := Land(At(s, x)), At(s, x).next;
            k + 1 < |Calls(cfg, Peer(x))| && Phases(cfg, k) == 1
            && e'.ctlFromPeer == Control(Calls(cfg, Peer(x))[k + 1]) && e'.seqFromPeer == e'.newSeq
  {
    OvertakingIsNextCall(cfg, s, x);
  }

  /** Exactly when overtaking does harm. A control word arrives at an end that has its answer pending
      in call k: the decision that the call then takes is the one that the pair of k-th calls
      prescribes if and only if the peer's next call gives the same error as its k-th. */
  lemma OvertakingHarmsExactly(cfg: Config, s: State, x: Side)
    requires Agree(cfg, s) && Enabled(cfg, s, Arrive(x)) && !CtlPrompt(s, Arrive(x))
    ensures At(s, x).next < |Calls(cfg, x)| && At(s, x).next < |Calls(cfg, Peer(x))|
    ensures var k, e := At(s, x).next, Land(At(s, x)).(pc := GetCtl);
            var me := Act(cfg, x, e, s.mem).me;
            var mine, theirs := Calls(cfg, x)[k], Calls(cfg, Peer(x))[k];
            (me.pc.Idle? && |me.log| == k + 1 && me.log[k].ret == ExpectedReturn(x, mine, theirs)
             && me.log[k].error == ExpectedError(x, mine, theirs)) <==> Harmless(cfg, x, k)
  {
    hide Linked, Contents, WellFormed, Act, Land, ExpectedError, ExpectedReturn;
    OvertakenReadsNextCall(cfg, s, x);
    InsideOneCall(cfg, s, x);
    var k, e := At(s, x).next, Land(At(s, x)).(pc := GetCtl);
    LandKeepsCall(At(s, x));
    DecisionByError(cfg, x, e, s.mem, Calls(cfg, Peer(x))[k + 1]);
    OnePhaseErrors(cfg, x, k);
  }

  lemma InsideOneCall(cfg: Config, s: State, x: Side)
    requires Agree(cfg, s) && AnswerPending(At(s, x))
    ensures cfg.modulus >= 2 && At(s, x).next < |Calls(cfg, x)| && |At(s, x).log| == At(s, x).next
  {
    hide SkewInv, Heard, OutBytes, WellFormed, RxBuffer, TxBuffer, Learned;
  }

  lemma LandKeepsCall(e: End)
    requires e.inbox != []
    ensures Land(e).next == e.next && Land(e).log == e.log
  {
  }

  /** What a call does after its first phase, by the error that its own call and the one it read of give. */
  lemma DecisionByError(cfg: Config, x: Side, e: End, mem: seq<Byte>, theirs: Call)
    requires cfg.modulus > 0 && e.pc.GetCtl? && CanAct(cfg, x, e) && e.ctlFromPeer == Control(theirs)
    ensures var me, mine := Act(cfg, x, e, mem).me, CallOf(cfg, x, e);
            var error := ExpectedError(x, mine, theirs);
            if error == 0 && mine.Transfer? then
              me.pc == (if x.Tx? then GetDest else PutSeq2) && me.next == e.next && me.log == e.log
            else me.pc.Idle? && me.next == e.next + 1 && |me.log| == |e.log| + 1 && me.log[..|e.log|] == e.log
                 && me.log[|e.log|].error == error && me.log[|e.log|].ret == (if error != 0 then -1 else 0)
  {
    hide Slice, Buffer;
  }

  /** In a pair that takes one phase, a transfer fails. */
  lemma OnePhaseErrors(cfg: Config, x: Side, k: nat)
    requires k < |Calls(cfg, x)| && k < |Calls(cfg, Peer(x))| && Phases(cfg, k) == 1
    ensures var mine, theirs := Calls(cfg, x)[k], Calls(cfg, Peer(x))[k];
            && (mine.Transfer? ==> ExpectedError(x, mine, theirs) != 0)
            && ExpectedReturn(x, mine, theirs) == (if ExpectedError(x, mine, theirs) != 0 then -1 else 0)
  {
  }

  // ----- what a receive can return

  /** Results of receives, and the size that a receive inside its second phase is going to return. */
  predicate ReceivesPositive(cfg: Config, e: End) {
    && |e.log| == e.next && e.next <= |cfg.rxCalls|
    && (forall k :: 0 <= k < e.next && cfg.rxCalls[k].Transfer? ==> e.log[k].ret == -1 || e.log[k].ret > 0)
    && (Sending(e.pc) || e.pc.PutSeq2? || e.pc.Await2? ==> e.dest > 0 && !Sending(e.pc))
  }

  lemma ActPositive(cfg: Config, e: End, mem: seq<Byte>)
    requires cfg.modulus > 0 && ReceivesPositive(cfg, e) && CanAct(cfg, Rx, e)
    ensures ReceivesPositive(cfg, Act(cfg, Rx, e, mem).me)
  {
    hide Plan, Slice, Buffer, WordAligned;
  }

  lemma StepPositive(cfg: Config, s: State, st: Step)
    requires cfg.modulus > 0 && ReceivesPositive(cfg, s.rx) && Enabled(cfg, s, st)
    ensures ReceivesPositive(cfg, Next(cfg, s, st).rx)
  {
    hide Act;
    if st == Core(Rx) { ActPositive(cfg, s.rx, s.mem); }
  }

  lemma {:induction false} RunPositive(cfg: Config, s: State, steps: seq<Step>)
    requires cfg.modulus > 0 && ReceivesPositive(cfg, s.rx) && Run(cfg, s, steps)
    ensures ReceivesPositive(cfg, Exec(cfg, s, steps).rx)
    decreases |steps|
  {
    if steps != [] {
      StepPositive(cfg, s, steps[0]);
      RunPositive(cfg, Next(cfg, s, steps[0]), steps[1..]);
    }
  }

  /** A receive never returns zero, whatever the sender calls and however the two interleave: its
      result is -1 or a positive size. */
  lemma ReceiveNeverZero(cfg: Config, mem: seq<Byte>, steps: seq<Step>, k: nat)
    requires cfg.modulus > 0 && Run(cfg, Init(mem), steps)
    requires k < |Exec(cfg, Init(mem), steps).rx.log|
    ensures k < |cfg.rxCalls|
    ensures var ret := Exec(cfg, Init(mem), steps).rx.log[k].ret;
            cfg.rxCalls[k].Transfer? ==> ret == -1 || ret > 0
  {
    RunPositive(cfg, Init(mem), steps);
  }

  // ----- matched transfers

  /** When every pair of calls moves data, no control word can overtake its reader, whatever the
      interleaving and however long writes are on their way. */
  lemma TransfersArePrompt(cfg: Config, s: State, st: Step)
    requires Linked(cfg, s) && AllMove(cfg) && Enabled(cfg, s, st)
    ensures CtlPrompt(s, st)
  {
    if !CtlPrompt(s, st) {
      OvertakingIsNextCall(cfg, s, st.x);
      MovesInCall(cfg, st.x, At(s, st.x));
    }
  }

  lemma MovesInCall(cfg: Config, x: Side, e: End)
    requires AllMove(cfg) && e.next < |Calls(cfg, x)| && e.next < |Calls(cfg, Peer(x))|
    ensures Phases(cfg, e.next) == 2
  {
    assert Moves(cfg.txCalls[e.next], cfg.rxCalls[e.next]);
  }

  lemma {:induction false} TransferRunIsOrderly(cfg: Config, s: State, steps: seq<Step>)
    requires Agree(cfg, s) && AllMove(cfg) && Run(cfg, s, steps)
    ensures OrderlyRun(cfg, s, steps)
    decreases |steps|
  {
    hide CtlPrompt;
    if steps != [] {
      TransfersArePrompt(cfg, s, steps[0]);
      StepKeepsAgree(cfg, s, steps[0]);
      TransferRunIsOrderly(cfg, Next(cfg, s, steps[0]), steps[1..]);
    }
  }

  /** The k-th receive returned the size of the k-th send, with its bytes in front of an otherwise
      untouched buffer. */
  predicate ReceiveDone(cfg: Config, s: State, k: nat) {
    && k < |cfg.txCalls| && k < |s.tx.snaps| && k < |s.rx.snaps| && k < |s.rx.log|
    && |s.tx.snaps[k]| == Size(cfg.txCalls[k]) && |s.tx.snaps[k]| <= |s.rx.snaps[k]|
    && s.rx.log[k] == Entry(Size(cfg.txCalls[k]), 0, s.tx.snaps[k] + s.rx.snaps[k][|s.tx.snaps[k]|..])
  }

  /** The k-th send returned its size, and left its buffer as it was. */
  predicate SendDone(cfg: Config, s: State, k: nat) {
    && k < |cfg.txCalls| && k < |s.tx.snaps| && k < |s.tx.log|
    && s.tx.log[k] == Entry(Size(cfg.txCalls[k]), 0, s.tx.snaps[k])
  }

  /** Refinement to a rendezvous channel, in every interleaving of any number of matched sends and
      receives: there are at most as many completed receives as started sends, and each completed
      receive delivered the message of the send with the same number; and the other way round. */
  lemma ChannelTheorem(cfg: Config, mem: seq<Byte>, steps: seq<Step>)
    requires WellFormed(cfg, |mem|) && AllMove(cfg) && Run(cfg, Init(mem), steps)
    ensures var s := Exec(cfg, Init(mem), steps);
            |s.rx.log| <= |s.tx.snaps| && |s.tx.log| <= |s.rx.snaps|
    ensures var s := Exec(cfg, Init(mem), steps);
            (forall k :: 0 <= k < |s.rx.log| ==> ReceiveDone(cfg, s, k))
            && (forall k :: 0 <= k < |s.tx.log| ==> SendDone(cfg, s, k))
  {
    hide Contents, Linked, Init, ReceiveDone, SendDone;
    InitAgrees(cfg, mem);
    TransferRunIsOrderly(cfg, Init(mem), steps);
    OrderlyRunKeepsAgree(cfg, Init(mem), steps);
    var s := Exec(cfg, Init(mem), steps);
    ReceivesComplete(cfg, s);
    SendsComplete(cfg, s);
    SendsNeedReceives(cfg, s);
  }

  lemma ReceivesComplete(cfg: Config, s: State)
    requires Agree(cfg, s) && AllMove(cfg)
    ensures |s.rx.log| <= |s.tx.snaps|
    ensures forall k :: 0 <= k < |s.rx.log| ==> ReceiveDone(cfg, s, k)
  {
    hide Linked, WellFormed, RxBuffer, TxBuffer, Learned, SnapSizes;
    forall k | 0 <= k < |s.rx.log| ensures ReceiveDone(cfg, s, k) {
      assert EntryOk(cfg, Rx, k, s.rx.log[k], s.rx.snaps[k], s.tx.snaps);
      assert Moves(cfg.txCalls[k], cfg.rxCalls[k]);
    }
    if |s.rx.log| > 0 { assert ReceiveDone(cfg, s, |s.rx.log| - 1); }
  }

  lemma SendsComplete(cfg: Config, s: State)
    requires Agree(cfg, s) && AllMove(cfg)
    ensures forall k :: 0 <= k < |s.tx.log| ==> SendDone(cfg, s, k)
  {
    hide Linked, WellFormed, RxBuffer, TxBuffer, Learned, SnapSizes;
    forall k | 0 <= k < |s.tx.log| ensures SendDone(cfg, s, k) {
      assert EntryOk(cfg, Tx, k, s.tx.log[k], s.tx.snaps[k], s.tx.snaps);
      assert Moves(cfg.txCalls[k], cfg.rxCalls[k]);
    }
  }

  lemma SendsNeedReceives(cfg: Config, s: State)
    requires Agree(cfg, s)
    ensures |s.tx.log| <= |s.rx.snaps|
  {
    SkewBounds(cfg, s);
    WhereOut(cfg, Tx, s.tx);
    WhereOut(cfg, Rx, s.rx);
    if s.tx.next > s.rx.next + 1 { BaseMono(cfg, s.rx.next + 1, s.tx.next); }
    if s.tx.next == s.rx.next + 1 { BaseMono(cfg, s.rx.next, s.tx.next); }
  }

  /** The receiver's memory is written by the sender only between the first publication of the
      receive it belongs to and its return, only for a pair of calls that moves data, and only within
      the bytes of the message. The sender makes those writes while the receiver is inside that call,
      each one naturally aligned. */
  lemma WindowTheorem(cfg: Config, mem: seq<Byte>, steps: seq<Step>)
    requires WellFormed(cfg, |mem|) && OrderlyRun(cfg, Init(mem), steps)
    ensures Run(cfg, Init(mem), steps)
    ensures var s := Exec(cfg, Init(mem), steps);
            s.rx.inbox != [] && s.rx.inbox[0].WData? ==>
              && !BeforePublish(s.rx.pc) && s.rx.next < |cfg.rxCalls| && s.rx.next < |cfg.txCalls|
              && var dst, w := Buffer(cfg, Rx, cfg.rxCalls[s.rx.next]), s.rx.inbox[0];
                 && dst <= w.at && w.at + |w.bytes| <= dst + Size(cfg.txCalls[s.rx.next])
                 && Moves(cfg.txCalls[s.rx.next], cfg.rxCalls[s.rx.next])
    ensures var s := Exec(cfg, Init(mem), steps);
            s.tx.inbox != [] ==> !s.tx.inbox[0].WData?
    ensures var s := Exec(cfg, Init(mem), steps);
            s.tx.pc.Copy? ==>
              && s.rx.next == s.tx.next && !BeforePublish(s.rx.pc)
              && s.tx.next < |cfg.rxCalls| && s.tx.next < |cfg.txCalls|
              && s.tx.dest == Buffer(cfg, Rx, cfg.rxCalls[s.tx.next])
              && Natural(s.tx.plan, Buffer(cfg, Tx, cfg.txCalls[s.tx.next]), s.tx.dest)
  {
    hide Init, Agree;
    InitAgrees(cfg, mem);
    OrderlyRunKeepsAgree(cfg, Init(mem), steps);
    WindowHolds(cfg, Exec(cfg, Init(mem), steps));
  }

  lemma WindowHolds(cfg: Config, s: State)
    requires Agree(cfg, s)
    ensures s.rx.inbox != [] && s.rx.inbox[0].WData? ==>
              && !BeforePublish(s.rx.pc) && s.rx.next < |cfg.rxCalls| && s.rx.next < |cfg.txCalls|
              && var dst, w := Buffer(cfg, Rx, cfg.rxCalls[s.rx.next]), s.rx.inbox[0];
                 && dst <= w.at && w.at + |w.bytes| <= dst + Size(cfg.txCalls[s.rx.next])
                 && Moves(cfg.txCalls[s.rx.next], cfg.rxCalls[s.rx.next])
    ensures s.tx.inbox != [] ==> !s.tx.inbox[0].WData?
    ensures s.tx.pc.Copy? ==>
              && s.rx.next == s.tx.next && !BeforePublish(s.rx.pc)
              && s.tx.next < |cfg.rxCalls| && s.tx.next < |cfg.txCalls|
              && s.tx.dest == Buffer(cfg, Rx, cfg.rxCalls[s.tx.next])
              && Natural(s.tx.plan, Buffer(cfg, Tx, cfg.txCalls[s.tx.next]), s.tx.dest)
  {
    hide WellFormed, Results, SnapSizes, RxBuffer, TxBuffer, GoodView, OutBytes;
    if s.rx.inbox != [] && s.rx.inbox[0].WData? { BytesArriveInWindow(cfg, s); }
    if s.tx.pc.Copy? { SameCall(cfg, s); AddressIsPartners(cfg, s); }
  }

  /** The sender's next access in its copy loops: it reads at some offset in its buffer and writes at the
      same offset in the receiver's, inside the message. An address within the first megabyte is the core's
      own and carries that core's coreid bits. */
  predicate CopiesAcross(cfg: Config, s: State, t: Call, r: Call, a: Access) {
    && t.Transfer? && r.Transfer? && a.offset + a.width <= t.size <= r.size
    && var src := if t.buf < 0x10_0000 then t.buf + cfg.txBits else t.buf;
       var dst := if r.buf < 0x10_0000 then r.buf + cfg.rxBits else r.buf;
       && src + t.size <= |s.mem| && dst + r.size <= |s.mem| && cfg.modulus > 0 && CanAct(cfg, Tx, s.tx)
       && Act(cfg, Tx, s.tx, s.mem).out
          == [WData(dst + a.offset, s.mem[src + a.offset..src + a.offset + a.width])]
  }

  /** From where to where messages are copied. */
  lemma FromBufferToBuffer(cfg: Config, mem: seq<Byte>, steps: seq<Step>)
    requires WellFormed(cfg, |mem|) && OrderlyRun(cfg, Init(mem), steps)
    ensures Run(cfg, Init(mem), steps)
    ensures var s := Exec(cfg, Init(mem), steps);
            s.tx.pc.Copy? && s.tx.plan != [] ==>
              && s.tx.next < |cfg.txCalls| && s.tx.next < |cfg.rxCalls|
              && CopiesAcross(cfg, s, cfg.txCalls[s.tx.next], cfg.rxCalls[s.tx.next], s.tx.plan[0])
  {
    hide Init, Agree, CopiesAcross;
    InitAgrees(cfg, mem);
    OrderlyRunKeepsAgree(cfg, Init(mem), steps);
    var s := Exec(cfg, Init(mem), steps);
    if s.tx.pc.Copy? && s.tx.plan != [] { CopyFromTo(cfg, s); }
  }

  lemma CopyFromTo(cfg: Config, s: State)
    requires Agree(cfg, s) && s.tx.pc.Copy? && s.tx.plan != []
    ensures s.tx.next < |cfg.txCalls| && s.tx.next < |cfg.rxCalls|
    ensures CopiesAcross(cfg, s, cfg.txCalls[s.tx.next], cfg.rxCalls[s.tx.next], s.tx.plan[0])
  {
    hide Results, SnapSizes, RxBuffer, TxBuffer, GoodView, Heard, Learned, SkewInv;
    WindowHolds(cfg, s);
    TilesHead(s.tx.plan, s.tx.out.d, Size(cfg.txCalls[s.tx.next]));
    FitsAt(cfg, Tx, |s.mem|, s.tx.next);
    FitsAt(cfg, Rx, |s.mem|, s.tx.next);
  }

  /** Stability of what was exchanged: the control word about to be read, and the address word from
      the sender's first look at it to the end of its copy, are those of the partner's call. */
  lemma StabilityTheorem(cfg: Config, mem: seq<Byte>, steps: seq<Step>)
    requires WellFormed(cfg, |mem|) && AllMove(cfg) && Run(cfg, Init(mem), steps)
    ensures var s := Exec(cfg, Init(mem), steps);
            forall x :: At(s, x).pc.GetCtl? ==>
              At(s, x).next < |Calls(cfg, Peer(x))|
              && At(s, x).ctlFromPeer == Control(Calls(cfg, Peer(x))[At(s, x).next])
    ensures var s := Exec(cfg, Init(mem), steps);
            Sending(s.tx.pc) ==>
              s.tx.next < |cfg.rxCalls| && s.tx.addrFromPeer == Buffer(cfg, Rx, cfg.rxCalls[s.tx.next])
  {
    InitAgrees(cfg, mem);
    TransferRunIsOrderly(cfg, Init(mem), steps);
    OrderlyRunKeepsAgree(cfg, Init(mem), steps);
    var s := Exec(cfg, Init(mem), steps);
    forall x | At(s, x).pc.GetCtl?
      ensures At(s, x).next < |Calls(cfg, Peer(x))|
              && At(s, x).ctlFromPeer == Control(Calls(cfg, Peer(x))[At(s, x).next])
    {
      ControlAnswers(cfg, s, x);
      MovesInCall(cfg, x, At(s, x));
    }
    if Sending(s.tx.pc) { AddressIsPartners(cfg, s); }
  }
}
