/** Runs that show the assumptions of the results to be needed: the race that the comments on
    x_sync describe, and waiters that are overtaken for good, in syncs and in transfers. */
module HandshakeWitnesses {
  import opened CopyPlan
  import opened Handshake
  import opened HandshakeSkew
  import opened Rendezvous

  lemma {:induction false} RunAppend(cfg: Config, s: State, a: seq<Step>, b: seq<Step>)
    requires cfg.modulus > 0 && Run(cfg, s, a) && Run(cfg, Exec(cfg, s, a), b)
    ensures Run(cfg, s, a + b) && Exec(cfg, s, a + b) == Exec(cfg, Exec(cfg, s, a), b)
    decreases |a|
  {
    hide Next, Enabled;
    if a == [] {
      assert a + b == b;
    } else {
      RunAppend(cfg, Next(cfg, s, a[0]), a[1..], b);
      assert (a + b)[1..] == a[1..] + b;
    }
  }

  /** Both ends start a sync, both publish, and everything published arrives. */
  const BOTH_PUBLISH: seq<Step> := [Core(Tx), Core(Tx), Core(Tx)] + [Core(Rx), Core(Rx), Core(Rx)]
  const BOTH_ARRIVE: seq<Step> := [Arrive(Tx), Arrive(Tx)] + [Arrive(Rx), Arrive(Rx)]
  const RX_RETURNS: seq<Step> := [Core(Rx), Core(Rx)]

  // ----- the race

  /** One sync at the sending end; at the receiving end a sync and then a receive of five bytes. */
  const RACE: Config := Config(0x1_0000_0000, 0, 0, [Sync], [Sync, Transfer(0, 5)])

  const RX_OVERTAKES: seq<Step> := [Core(Rx), Core(Rx), Core(Rx), Arrive(Tx), Arrive(Tx)]
  const TX_RETURNS: seq<Step> := [Core(Tx), Core(Tx)]

  predicate FirstCalls(s: State) {
    s.tx.pc.Await1? && s.rx.pc.Await1? && s.tx.next == s.rx.next == 0 && s.tx.newSeq == s.rx.newSeq == 1
    && s.tx.log == [] && s.rx.log == [] && s.tx.out.n == s.rx.out.n == 1
  }

  lemma Published(cfg: Config, mem: seq<Byte>) returns (s: State)
    requires cfg.modulus == 0x1_0000_0000 && cfg.txCalls != [] && cfg.rxCalls != []
    requires cfg.txCalls[0].Sync? && cfg.rxCalls[0].Sync?
    ensures Run(cfg, Init(mem), BOTH_PUBLISH) && s == Exec(cfg, Init(mem), BOTH_PUBLISH)
    ensures FirstCalls(s) && s.tx.inbox == s.rx.inbox == [WCtl(0), WSeq(1)] && s.tx.arrived.n == s.rx.arrived.n == 0
  {
    hide Next, Enabled, Run, Exec;
    var s3 := TxPublishes(cfg, mem);
    s := RxPublishes(cfg, s3);
    RunAppend(cfg, Init(mem), [Core(Tx), Core(Tx), Core(Tx)], [Core(Rx), Core(Rx), Core(Rx)]);
  }

  lemma TxPublishes(cfg: Config, mem: seq<Byte>) returns (s: State)
    requires cfg.modulus == 0x1_0000_0000 && cfg.txCalls != [] && cfg.txCalls[0].Sync?
    ensures Run(cfg, Init(mem), [Core(Tx), Core(Tx), Core(Tx)])
    ensures s == Exec(cfg, Init(mem), [Core(Tx), Core(Tx), Core(Tx)])
    ensures s.tx.pc.Await1? && s.tx.next == 0 && s.tx.newSeq == 1 && s.tx.inbox == [] && s.tx.log == []
    ensures s.tx.out.n == 1
    ensures s.tx.arrived.n == 0 && s.rx == FRESH_END.(inbox := [WCtl(0), WSeq(1)])
  {
    hide Slice;
    var s1 := Next(cfg, Init(mem), Core(Tx));
    var s2 := Next(cfg, s1, Core(Tx));
    s := Next(cfg, s2, Core(Tx));
    assert s.rx.inbox == [WCtl(0), WSeq(1)];
  }

  lemma RxPublishes(cfg: Config, s: State) returns (s': State)
    requires cfg.modulus == 0x1_0000_0000 && cfg.rxCalls != [] && cfg.rxCalls[0].Sync?
    requires s.rx.pc.Idle? && s.rx.next == 0 && s.rx.sequence == 0 && s.tx.inbox == [] && s.rx.out.n == 0
    ensures Run(cfg, s, [Core(Rx), Core(Rx), Core(Rx)]) && s' == Exec(cfg, s, [Core(Rx), Core(Rx), Core(Rx)])
    ensures s'.tx == s.tx.(inbox := [WCtl(0), WSeq(1)])
    ensures s'.rx.pc.Await1? && s'.rx.next == 0 && s'.rx.newSeq == 1 && s'.rx.inbox == s.rx.inbox
    ensures s'.rx.log == s.rx.log
    ensures s'.rx.out.n == 1 && s'.rx.arrived == s.rx.arrived
  {
    var s1 := Next(cfg, s, Core(Rx));
    var s2 := Next(cfg, s1, Core(Rx));
    s' := Next(cfg, s2, Core(Rx));
    assert s'.tx.inbox == [WCtl(0), WSeq(1)];
  }

  lemma Arrived(cfg: Config, s: State) returns (s': State)
    requires cfg.modulus == 0x1_0000_0000 && FirstCalls(s) && s.tx.inbox == s.rx.inbox == [WCtl(0), WSeq(1)]
    requires s.tx.arrived.n == s.rx.arrived.n == 0
    ensures s'.tx.arrived.n == s'.rx.arrived.n == 1
    ensures Run(cfg, s, BOTH_ARRIVE) && s' == Exec(cfg, s, BOTH_ARRIVE)
    ensures FirstCalls(s') && s'.tx.inbox == s'.rx.inbox == []
    ensures s'.tx.seqFromPeer == s'.rx.seqFromPeer == 1 && s'.tx.ctlFromPeer == s'.rx.ctlFromPeer == 0
  {
    var s1 := Next(cfg, s, Arrive(Tx));
    var s2 := Next(cfg, s1, Arrive(Tx));
    var s3 := Next(cfg, s2, Arrive(Rx));
    s' := Next(cfg, s3, Arrive(Rx));
    RunAppend(cfg, s, [Arrive(Tx), Arrive(Tx)], [Arrive(Rx), Arrive(Rx)]);
  }

  lemma Returned(cfg: Config, s: State) returns (s': State)
    requires cfg.modulus == 0x1_0000_0000 && FirstCalls(s) && |cfg.rxCalls| > 0 && cfg.rxCalls[0].Sync?
    requires s.tx.inbox == s.rx.inbox == [] && s.rx.seqFromPeer == 1 && s.rx.ctlFromPeer == 0
    ensures Run(cfg, s, RX_RETURNS) && s' == Exec(cfg, s, RX_RETURNS)
    ensures s'.tx == s.tx
    ensures s'.rx.pc.Idle? && s'.rx.next == 1 && s'.rx.sequence == 1 && s'.rx.inbox == []
    ensures |s'.rx.log| == 1 && s'.rx.log[0].ret == X_SUCCESS
  {
    var s1 := Next(cfg, s, Core(Rx));
    s' := Next(cfg, s1, Core(Rx));
  }

  lemma Overtaken(s: State) returns (s': State)
    requires FirstCalls(s.(rx := s.tx)) && s.tx.inbox == [] && s.tx.seqFromPeer == 1
    requires s.rx.pc.Idle? && s.rx.next == 1
    ensures Run(RACE, s, RX_OVERTAKES) && s' == Exec(RACE, s, RX_OVERTAKES)
    ensures s'.tx == s.tx.(ctlFromPeer := 5, addrFromPeer := 0, arrived := s'.tx.arrived)
    ensures s'.rx.log == s.rx.log
  {
    hide Slice;
    var s1 := Next(RACE, s, Core(Rx));
    var s2 := Next(RACE, s1, Core(Rx));
    var s3 := Next(RACE, s2, Core(Rx));
    var s4 := Next(RACE, s3, Arrive(Tx));
    s' := Next(RACE, s4, Arrive(Tx));
  }

  lemma Misled(s: State) returns (s': State)
    requires s.tx.pc.Await1? && s.tx.next == 0 && s.tx.newSeq == 1 && s.tx.seqFromPeer == 1
    requires s.tx.ctlFromPeer == 5 && s.tx.log == []
    ensures Run(RACE, s, TX_RETURNS) && s' == Exec(RACE, s, TX_RETURNS)
    ensures |s'.tx.log| == 1 && s'.tx.log[0].ret == X_ERROR && s'.tx.log[0].error == X_E_SYNC_TRANSFER_MISMATCH
    ensures s'.rx.log == s.rx.log
  {
    var s1 := Next(RACE, s, Core(Tx));
    s' := Next(RACE, s1, Core(Tx));
  }

  /** A sync that met a sync reports a mismatch, because the peer's next control word arrived
      between the two reads: the two ends disagree about the same pair of calls. */
  lemma RaceWitness(mem: seq<Byte>) returns (steps: seq<Step>)
    ensures Run(RACE, Init(mem), steps)
    ensures var s := Exec(RACE, Init(mem), steps);
            && |s.tx.log| == |s.rx.log| == 1 && s.rx.log[0].ret == X_SUCCESS
            && s.tx.log[0].ret == X_ERROR && s.tx.log[0].error == X_E_SYNC_TRANSFER_MISMATCH
    ensures ExpectedReturn(Tx, RACE.txCalls[0], RACE.rxCalls[0]) == X_SUCCESS
  {
    var s1 := Published(RACE, mem);
    var s2 := Arrived(RACE, s1);
    var s3 := Returned(RACE, s2);
    var s4 := Overtaken(s3);
    var s5 := Misled(s4);
    RunAppend(RACE, Init(mem), BOTH_PUBLISH, BOTH_ARRIVE);
    RunAppend(RACE, Init(mem), BOTH_PUBLISH + BOTH_ARRIVE, RX_RETURNS);
    RunAppend(RACE, Init(mem), BOTH_PUBLISH + BOTH_ARRIVE + RX_RETURNS, RX_OVERTAKES);
    steps := BOTH_PUBLISH + BOTH_ARRIVE + RX_RETURNS + RX_OVERTAKES + TX_RETURNS;
    RunAppend(RACE, Init(mem), BOTH_PUBLISH + BOTH_ARRIVE + RX_RETURNS + RX_OVERTAKES, TX_RETURNS);
  }

  // ----- a receive that meets a sync

  /** A sync at the sending end, a receive of five bytes at the receiving end. */
  const MEET: Config := Config(0x1_0000_0000, 0, 0, [Sync], [Transfer(0, 5)])

  const SYNC_OFFERS: seq<Step> := [Core(Tx), Core(Tx), Core(Tx)]
  const RECEIVE_MEETS: seq<Step> := [Core(Rx), Core(Rx), Core(Rx), Core(Rx)]
    + [Arrive(Rx), Arrive(Rx), Core(Rx), Core(Rx)]

  lemma ReceiveOffered(s: State) returns (s': State)
    requires s.rx == FRESH_END.(inbox := [WCtl(0), WSeq(1)])
    ensures Run(MEET, s, [Core(Rx), Core(Rx), Core(Rx), Core(Rx)])
    ensures s' == Exec(MEET, s, [Core(Rx), Core(Rx), Core(Rx), Core(Rx)])
    ensures s'.rx.pc.Await1? && s'.rx.next == 0 && s'.rx.newSeq == 1 && s'.rx.inbox == [WCtl(0), WSeq(1)]
    ensures s'.rx.log == []
  {
    hide Slice;
    var s1 := Next(MEET, s, Core(Rx));
    var s2 := Next(MEET, s1, Core(Rx));
    var s3 := Next(MEET, s2, Core(Rx));
    s' := Next(MEET, s3, Core(Rx));
  }

  lemma ReceiveDecided(s: State) returns (s': State)
    requires s.rx.pc.Await1? && s.rx.next == 0 && s.rx.newSeq == 1 && s.rx.inbox == [WCtl(0), WSeq(1)] && s.rx.log == []
    ensures Run(MEET, s, [Arrive(Rx), Arrive(Rx), Core(Rx), Core(Rx)])
    ensures s' == Exec(MEET, s, [Arrive(Rx), Arrive(Rx), Core(Rx), Core(Rx)])
    ensures |s'.rx.log| == 1 && s'.rx.log[0].ret == -1 && s'.rx.log[0].error == X_E_SYNC_TRANSFER_MISMATCH
  {
    hide Slice;
    var s1 := Next(MEET, s, Arrive(Rx));
    var s2 := Next(MEET, s1, Arrive(Rx));
    var s3 := Next(MEET, s2, Core(Rx));
    s' := Next(MEET, s3, Core(Rx));
  }

  /** A receive whose sender only synchronises returns -1, not zero. */
  lemma ReceiveMeetsSync(mem: seq<Byte>) returns (steps: seq<Step>)
    ensures Run(MEET, Init(mem), steps)
    ensures var s := Exec(MEET, Init(mem), steps);
            |s.rx.log| == 1 && s.rx.log[0].ret == -1 && s.rx.log[0].error == X_E_SYNC_TRANSFER_MISMATCH
  {
    hide Next, Enabled, Run, Exec;
    var s1 := TxPublishes(MEET, mem);
    var s2 := ReceiveOffered(s1);
    var s3 := ReceiveDecided(s2);
    RunAppend(MEET, s1, [Core(Rx), Core(Rx), Core(Rx), Core(Rx)], [Arrive(Rx), Arrive(Rx), Core(Rx), Core(Rx)]);
    steps := SYNC_OFFERS + RECEIVE_MEETS;
    RunAppend(MEET, Init(mem), SYNC_OFFERS, RECEIVE_MEETS);
  }

  // ----- being lapped

  /** Two syncs on both ends. */
  const LAP: Config := Config(0x1_0000_0000, 0, 0, [Sync, Sync], [Sync, Sync])

  const RX_LAPS: seq<Step> := [Core(Rx), Core(Rx), Core(Rx)] + [Arrive(Tx), Arrive(Tx)]

  predicate FirstSeen(e: End) {
    e.pc.Await1? && e.next == 0 && e.newSeq == 1 && e.seqFromPeer == 1 && e.out.n == 1 && e.arrived.n == 1
  }

  lemma RxGoesOn(s: State) returns (s': State)
    requires FirstSeen(s.tx) && s.tx.inbox == []
    requires s.rx.pc.Idle? && s.rx.next == 1 && s.rx.sequence == 1 && s.rx.inbox == []
    ensures Run(LAP, s, [Core(Rx), Core(Rx), Core(Rx)]) && s' == Exec(LAP, s, [Core(Rx), Core(Rx), Core(Rx)])
    ensures s'.tx == s.tx.(inbox := [WCtl(0), WSeq(2)]) && s'.rx.pc.Await1? && s'.rx.inbox == []
  {
    hide Slice;
    var s1 := Next(LAP, s, Core(Rx));
    var s2 := Next(LAP, s1, Core(Rx));
    s' := Next(LAP, s2, Core(Rx));
    assert s'.tx.inbox == [WCtl(0), WSeq(2)];
  }

  lemma TxMisses(s: State) returns (s': State)
    requires FirstSeen(s.tx) && s.tx.inbox == [WCtl(0), WSeq(2)]
    ensures Run(LAP, s, [Arrive(Tx), Arrive(Tx)]) && s' == Exec(LAP, s, [Arrive(Tx), Arrive(Tx)])
    ensures s'.rx == s.rx && s'.tx.pc.Await1? && s'.tx.inbox == [] && Lapped(s'.tx)
  {
    var s1 := Next(LAP, s, Arrive(Tx));
    s' := Next(LAP, s1, Arrive(Tx));
  }

  lemma LappedBy(s: State) returns (s': State)
    requires FirstSeen(s.tx) && s.tx.inbox == []
    requires s.rx.pc.Idle? && s.rx.next == 1 && s.rx.sequence == 1 && s.rx.inbox == []
    ensures Run(LAP, s, RX_LAPS) && s' == Exec(LAP, s, RX_LAPS)
    ensures s'.tx.pc.Await1? && s'.rx.pc.Await1? && s'.tx.inbox == s'.rx.inbox == [] && Lapped(s'.tx)
  {
    hide Next, Enabled, Run, Exec;
    var s1 := RxGoesOn(s);
    s' := TxMisses(s1);
    RunAppend(LAP, s, [Core(Rx), Core(Rx), Core(Rx)], [Arrive(Tx), Arrive(Tx)]);
  }

  /** Two programs that match call for call can come to a standstill with one end overtaken. */
  lemma LapWitness(mem: seq<Byte>) returns (steps: seq<Step>)
    ensures Run(LAP, Init(mem), steps)
    ensures var s := Exec(LAP, Init(mem), steps); Lapped(s.tx) && Stuck(LAP, s)
  {
    var s1 := Published(LAP, mem);
    var s2 := Arrived(LAP, s1);
    var s3 := Returned(LAP, s2);
    var s4 := LappedBy(s3);
    RunAppend(LAP, Init(mem), BOTH_PUBLISH, BOTH_ARRIVE);
    RunAppend(LAP, Init(mem), BOTH_PUBLISH + BOTH_ARRIVE, RX_RETURNS);
    steps := BOTH_PUBLISH + BOTH_ARRIVE + RX_RETURNS + RX_LAPS;
    RunAppend(LAP, Init(mem), BOTH_PUBLISH + BOTH_ARRIVE + RX_RETURNS, RX_LAPS);
    InitSkew(LAP, mem);
    RunKeepsSkew(LAP, Init(mem), steps);
    StuckExactly(LAP, s4);
  }

  // ----- being lapped in a transfer

  /** One byte sent, one byte received. */
  const MOVE: Config := Config(0x1_0000_0000, 0, 0, [Transfer(0, 1)], [Transfer(1, 1)])

  const TX_OFFERS: seq<Step> := [Core(Tx), Core(Tx), Core(Tx), Core(Tx)]
  const RX_OFFERS: seq<Step> := [Core(Rx), Core(Rx), Core(Rx), Core(Rx)]
  const RX_HEARS: seq<Step> := [Arrive(Rx), Arrive(Rx), Arrive(Rx)]
  const RX_CONFIRMS: seq<Step> := [Core(Rx), Core(Rx), Core(Rx)]
  const TX_HEARS: seq<Step> := [Arrive(Tx), Arrive(Tx)] + [Arrive(Tx), Arrive(Tx)]

  predicate Offered(e: End) {
    e.pc.Await1? && e.next == 0 && e.newSeq == 1 && e.seqFromPeer == 0 && e.arrived.n == 0 && e.out.n == 1
  }

  lemma TxOffered(mem: seq<Byte>) returns (s: State)
    ensures Run(MOVE, Init(mem), TX_OFFERS) && s == Exec(MOVE, Init(mem), TX_OFFERS)
    ensures Offered(s.tx) && s.tx.inbox == [] && s.rx == FRESH_END.(inbox := [WAddr(0), WCtl(1), WSeq(1)])
  {
    hide Slice;
    var s1 := Next(MOVE, Init(mem), Core(Tx));
    var s2 := Next(MOVE, s1, Core(Tx));
    var s3 := Next(MOVE, s2, Core(Tx));
    s := Next(MOVE, s3, Core(Tx));
    assert s.rx.inbox == [WAddr(0), WCtl(1), WSeq(1)];
  }

  lemma RxOffered(s: State) returns (s': State)
    requires Offered(s.tx) && s.tx.inbox == [] && s.rx == FRESH_END.(inbox := [WAddr(0), WCtl(1), WSeq(1)])
    ensures Run(MOVE, s, RX_OFFERS) && s' == Exec(MOVE, s, RX_OFFERS)
    ensures s'.tx == s.tx.(inbox := [WAddr(1), WCtl(1), WSeq(1)])
    ensures Offered(s'.rx) && s'.rx.inbox == [WAddr(0), WCtl(1), WSeq(1)]
  {
    hide Slice;
    var s1 := Next(MOVE, s, Core(Rx));
    var s2 := Next(MOVE, s1, Core(Rx));
    var s3 := Next(MOVE, s2, Core(Rx));
    s' := Next(MOVE, s3, Core(Rx));
    assert s'.tx.inbox == [WAddr(1), WCtl(1), WSeq(1)];
  }

  lemma RxHeard(s: State) returns (s': State)
    requires Offered(s.rx) && s.rx.inbox == [WAddr(0), WCtl(1), WSeq(1)]
    ensures Run(MOVE, s, RX_HEARS) && s' == Exec(MOVE, s, RX_HEARS)
    ensures s'.tx == s.tx && s'.rx.inbox == [] && s'.rx.pc.Await1? && s'.rx.next == 0 && s'.rx.newSeq == 1
    ensures s'.rx.seqFromPeer == 1 && s'.rx.ctlFromPeer == 1
  {
    var s1 := Next(MOVE, s, Arrive(Rx));
    var s2 := Next(MOVE, s1, Arrive(Rx));
    s' := Next(MOVE, s2, Arrive(Rx));
  }

  lemma RxConfirmed(s: State) returns (s': State)
    requires s.rx.pc.Await1? && s.rx.next == 0 && s.rx.newSeq == 1 && s.rx.seqFromPeer == 1 && s.rx.ctlFromPeer == 1
    requires s.rx.inbox == []
    requires s.tx.inbox == [WAddr(1), WCtl(1), WSeq(1)]
    ensures Run(MOVE, s, RX_CONFIRMS) && s' == Exec(MOVE, s, RX_CONFIRMS)
    ensures s'.tx == s.tx.(inbox := [WAddr(1), WCtl(1), WSeq(1), WSeq(2)])
    ensures s'.rx.pc.Await2? && s'.rx.inbox == [] && s'.rx.seqFromPeer == 1 && s'.rx.newSeq == 2
  {
    hide Slice;
    var s1 := Next(MOVE, s, Core(Rx));
    var s2 := Next(MOVE, s1, Core(Rx));
    s' := Next(MOVE, s2, Core(Rx));
    assert s'.tx.inbox == [WAddr(1), WCtl(1), WSeq(1), WSeq(2)];
  }

  lemma TxHeard(s: State) returns (s': State)
    requires Offered(s.tx) && s.tx.inbox == [WAddr(1), WCtl(1), WSeq(1), WSeq(2)]
    ensures Run(MOVE, s, TX_HEARS) && s' == Exec(MOVE, s, TX_HEARS)
    ensures s'.rx == s.rx && s'.tx.inbox == [] && s'.tx.pc.Await1? && s'.tx.newSeq == 1 && s'.tx.seqFromPeer == 2
    ensures Lapped(s'.tx)
  {
    var s1 := Next(MOVE, s, Arrive(Tx));
    var s2 := Next(MOVE, s1, Arrive(Tx));
    var s3 := Next(MOVE, s2, Arrive(Tx));
    s' := Next(MOVE, s3, Arrive(Tx));
    RunAppend(MOVE, s, [Arrive(Tx), Arrive(Tx)], [Arrive(Tx), Arrive(Tx)]);
  }

  /** The second synchronisation does not rule the race out: the receiver signals the second phase as
      soon as it has seen the first, so a sender that has not yet looked misses its answer, and one
      send to one receive comes to a standstill. */
  lemma TransferLapWitness(mem: seq<Byte>) returns (steps: seq<Step>)
    ensures AllMove(MOVE) && Run(MOVE, Init(mem), steps)
    ensures var s := Exec(MOVE, Init(mem), steps); Lapped(s.tx) && Stuck(MOVE, s)
  {
    hide Next, Enabled, Run, Exec;
    var s1 := TxOffered(mem);
    var s2 := RxOffered(s1);
    var s3 := RxHeard(s2);
    var s4 := RxConfirmed(s3);
    var s5 := TxHeard(s4);
    RunAppend(MOVE, Init(mem), TX_OFFERS, RX_OFFERS);
    RunAppend(MOVE, Init(mem), TX_OFFERS + RX_OFFERS, RX_HEARS);
    RunAppend(MOVE, Init(mem), TX_OFFERS + RX_OFFERS + RX_HEARS, RX_CONFIRMS);
    RunAppend(MOVE, Init(mem), TX_OFFERS + RX_OFFERS + RX_HEARS + RX_CONFIRMS, TX_HEARS);
    steps := TX_OFFERS + RX_OFFERS + RX_HEARS + RX_CONFIRMS + TX_HEARS;
    InitSkew(MOVE, mem);
    RunKeepsSkew(MOVE, Init(mem), steps);
    StuckExactly(MOVE, s5);
  }
}
