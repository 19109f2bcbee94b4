/** The endpoint programs of two cores run against each other: a behaviour of each, interleaved so that
    no write arrives before it is issued, make a run of the whole system; and every run is made so. */
module EndpointRuns {
  import opened CopyPlan
  import opened Handshake
  import opened Rendezvous
  import opened Endpoints
  import HandshakeAgreement
  import HandshakeAgreementSteps
  import HandshakeResults

  // ----- the system as one core sees it

  /** Two memories with the same contents in all buffers of `x`. */
  predicate SameView(cfg: Config, x: Side, m: seq<Byte>, m': seq<Byte>) {
    && |m| == |m'|
    && forall i :: 0 <= i < |Calls(cfg, x)| ==> SameBuffer(cfg, x, Calls(cfg, x)[i], m, m')
  }

  predicate SameBuffer(cfg: Config, x: Side, c: Call, m: seq<Byte>, m': seq<Byte>) {
    Slice(m, Buffer(cfg, x, c), Size(c)) == Slice(m', Buffer(cfg, x, c), Size(c))
  }

  /** The accesses still to be made lie inside the message. */
  predicate PlanInside(cfg: Config, x: Side, e: End) {
    e.pc.Copy? && e.next < |Calls(cfg, x)| && e.plan != [] ==>
      Tiles(e.plan, e.plan[0].offset, Size(Calls(cfg, x)[e.next]))
  }

  /** The core's own part, but for the writes that the peer has yet to issue, and its buffers. */
  predicate Mirrors(cfg: Config, s: State, x: Side, a: Local, future: seq<Write>) {
    && At(s, x).inbox + future == a.e.inbox
    && At(s, x) == a.e.(inbox := At(s, x).inbox)
    && SameView(cfg, x, s.mem, a.mem) && PlanInside(cfg, x, a.e)
  }

  lemma PartOfBuffer(m: seq<Byte>, m': seq<Byte>, at: nat, n: nat, off: nat, width: nat)
    requires |m| == |m'| && at + n <= |m| && off + width <= n && Slice(m, at, n) == Slice(m', at, n)
    ensures Slice(m, at + off, width) == Slice(m', at + off, width)
  {
    HandshakeAgreementSteps.SlicePart(m, at, n, off, width);
    HandshakeAgreementSteps.SlicePart(m', at, n, off, width);
  }

  /** A core's step depends on nothing else. */
  lemma ActSameView(cfg: Config, x: Side, e: End, q: seq<Write>, m: seq<Byte>, m': seq<Byte>)
    requires cfg.modulus > 0 && CanAct(cfg, x, e) && SameView(cfg, x, m, m') && PlanInside(cfg, x, e)
    requires BuffersFit(cfg, x, |m|)
    ensures CanAct(cfg, x, e.(inbox := q))
    ensures Act(cfg, x, e.(inbox := q), m').out == Act(cfg, x, e, m).out
    ensures Act(cfg, x, e.(inbox := q), m').me == Act(cfg, x, e, m).me.(inbox := q)
    ensures Act(cfg, x, e, m).me.inbox == e.inbox
  {
    hide Plan, Slice, WordAligned, Buffer, PlanInside;
    assert SameBuffer(cfg, x, CallOf(cfg, x, e), m, m');
    if e.pc.Copy? && e.plan != [] { CopySameView(cfg, x, e, m, m'); }
  }

  lemma CopySameView(cfg: Config, x: Side, e: End, m: seq<Byte>, m': seq<Byte>)
    requires e.next < |Calls(cfg, x)| && SameView(cfg, x, m, m') && PlanInside(cfg, x, e) && BuffersFit(cfg, x, |m|)
    requires e.pc.Copy? && e.plan != []
    ensures var buf := Buffer(cfg, x, CallOf(cfg, x, e));
            Slice(m, buf + e.plan[0].offset, e.plan[0].width) == Slice(m', buf + e.plan[0].offset, e.plan[0].width)
  {
    var c, a := CallOf(cfg, x, e), e.plan[0];
    assert SameBuffer(cfg, x, c, m, m');
    TilesHead(e.plan, a.offset, Size(c));
    PartOfBuffer(m, m', Buffer(cfg, x, c), Size(c), a.offset, a.width);
  }

  /** The plan covers the message whatever its place, also if the word path is taken wrongly because the
      address word has changed between its two readings. */
  lemma ChosenPlanTiles(cfg: Config, x: Side, e: End, mem: seq<Byte>)
    requires cfg.modulus > 0 && CanAct(cfg, x, e) && e.pc.GetAlign?
    ensures Tiles(Act(cfg, x, e, mem).me.plan, 0, Size(CallOf(cfg, x, e)))
  {
    hide Tiles, WordsFrom, Burst, Slice, Buffer;
    var c := CallOf(cfg, x, e);
    var src, dst, size := Buffer(cfg, x, c), e.dest, Size(c);
    if WordAligned(src, e.addrFromPeer) {
      var lead, end := Lead(src, dst, size), DoublesEnd(src, dst, size);
      LeadTiles(src, dst, size);
      DoublesTile(src, dst, size);
      WordsTile(end, size);
      TilesAppend(DoublesPlan(src, dst, size), WordsFrom(end, size), lead, end, size);
      TilesAppend(LeadPlan(src, dst, size), DoublesPlan(src, dst, size) + WordsFrom(end, size), 0, lead, size);
    } else {
      BytesFacts(size, src, dst);
    }
  }

  lemma ActPlanInside(cfg: Config, x: Side, e: End, mem: seq<Byte>)
    requires cfg.modulus > 0 && CanAct(cfg, x, e) && PlanInside(cfg, x, e)
    ensures PlanInside(cfg, x, Act(cfg, x, e, mem).me)
  {
    hide Plan, Slice, WordAligned, Buffer;
    var c := CallOf(cfg, x, e);
    if e.pc.GetAlign? {
      ChosenPlanTiles(cfg, x, e, mem);
    } else if e.pc.Copy? && e.plan != [] {
      var rest := e.plan[1..];
      assert Tiles(rest, e.plan[0].offset + e.plan[0].width, Size(c));
    }
  }

  // ----- arriving data

  /** These bytes miss every buffer of `x`. */
  predicate Misses(cfg: Config, x: Side, w: Write) {
    w.WData? ==> forall i :: 0 <= i < |Calls(cfg, x)| ==> MissesBuffer(cfg, x, Calls(cfg, x)[i], w.at, |w.bytes|)
  }

  predicate MissesBuffer(cfg: Config, x: Side, c: Call, at: nat, n: nat) {
    Disjoint(at, n, Buffer(cfg, x, c), Size(c))
  }

  lemma MissedView(cfg: Config, x: Side, m: seq<Byte>, m': seq<Byte>, w: Write)
    requires SameView(cfg, x, m, m') && Misses(cfg, x, w) && BuffersFit(cfg, x, |m|)
    ensures SameView(cfg, x, LandInMemory(m, w), m')
  {
    if w.WData? && w.at + |w.bytes| <= |m| {
      forall i | 0 <= i < |Calls(cfg, x)| ensures SameBuffer(cfg, x, Calls(cfg, x)[i], LandInMemory(m, w), m') {
        var c := Calls(cfg, x)[i];
        assert SameBuffer(cfg, x, c, m, m') && MissesBuffer(cfg, x, c, w.at, |w.bytes|);
        HandshakeAgreementSteps.PokeOutside(m, w.at, w.bytes, Buffer(cfg, x, c), Size(c));
      }
    }
  }

  lemma SharedView(cfg: Config, x: Side, m: seq<Byte>, m': seq<Byte>, w: Write)
    requires SameView(cfg, x, m, m') && BuffersFit(cfg, x, |m|)
    ensures SameView(cfg, x, LandInMemory(m, w), LandInMemory(m', w))
  {
    if w.WData? && w.at + |w.bytes| <= |m| {
      forall i | 0 <= i < |Calls(cfg, x)|
        ensures SameBuffer(cfg, x, Calls(cfg, x)[i], LandInMemory(m, w), LandInMemory(m', w)) {
        var c := Calls(cfg, x)[i];
        assert SameBuffer(cfg, x, c, m, m');
        SharedPoke(m, m', w.at, w.bytes, Buffer(cfg, x, c), Size(c));
      }
    }
  }

  lemma SharedPoke(m: seq<Byte>, m': seq<Byte>, at: nat, bytes: seq<Byte>, b: nat, n: nat)
    requires |m| == |m'| && at + |bytes| <= |m| && b + n <= |m| && Slice(m, b, n) == Slice(m', b, n)
    ensures Slice(Poke(m, at, bytes), b, n) == Slice(Poke(m', at, bytes), b, n)
  {
    var p, p' := Slice(Poke(m, at, bytes), b, n), Slice(Poke(m', at, bytes), b, n);
    forall i | 0 <= i < n ensures p[i] == p'[i] {
      assert m[b + i] == Slice(m, b, n)[i] && m'[b + i] == Slice(m', b, n)[i];
    }
  }

  // ----- steps

  /** A step of the core, or the arrival of a write that the peer has issued, is a step of the whole
      system; the writes it sends join those on their way to the peer. */
  lemma LocalStepIsStep(cfg: Config, s: State, x: Side, a: Local, b: Local, future: seq<Write>)
    requires cfg.modulus > 0 && BuffersFit(cfg, x, |s.mem|) && Mirrors(cfg, s, x, a, future)
    requires Acts(cfg, x, a, b) || (Takes(a, b) && At(s, x).inbox != [])
    ensures var st := if Acts(cfg, x, a, b) then Core(x) else Arrive(x);
            && Enabled(cfg, s, st)
            && var s' := Next(cfg, s, st);
               && Mirrors(cfg, s', x, b, future) && |s'.mem| == |s.mem|
               && a.sent <= b.sent
               && At(s', Peer(x)) == At(s, Peer(x)).(inbox := At(s, Peer(x)).inbox + b.sent[|a.sent|..])
  {
    hide SameView, PlanInside, BuffersFit, Act, Poke;
    var e, peer := At(s, x), At(s, Peer(x));
    if Acts(cfg, x, a, b) {
      SameViewBack(cfg, x, s.mem, a.mem);
      ActSameView(cfg, x, a.e, e.inbox, a.mem, s.mem);
      ActPlanInside(cfg, x, a.e, a.mem);
      assert b.sent[|a.sent|..] == Act(cfg, x, a.e, a.mem).out;
    } else {
      SharedView(cfg, x, s.mem, a.mem, e.inbox[0]);
      LandKeepsPlan(cfg, x, a.e);
      assert peer.inbox + [] == peer.inbox && b.sent[|a.sent|..] == [];
      assert a.e.inbox[0] == e.inbox[0] && a.e.inbox[1..] == e.inbox[1..] + future;
    }
  }

  lemma SameViewBack(cfg: Config, x: Side, m: seq<Byte>, m': seq<Byte>)
    requires SameView(cfg, x, m, m')
    ensures SameView(cfg, x, m', m) && |m| == |m'|
  {
    forall i | 0 <= i < |Calls(cfg, x)| ensures SameBuffer(cfg, x, Calls(cfg, x)[i], m', m) {
      assert SameBuffer(cfg, x, Calls(cfg, x)[i], m, m');
    }
  }

  lemma LandKeepsPlan(cfg: Config, x: Side, e: End)
    requires e.inbox != [] && PlanInside(cfg, x, e)
    ensures PlanInside(cfg, x, Land(e))
  {
  }

  /** A step of the peer's core that issues the next of those writes leaves this core's part as it is. */
  lemma PeerIssues(cfg: Config, s: State, x: Side, a: Local, future: seq<Write>)
    requires cfg.modulus > 0 && Mirrors(cfg, s, x, a, future) && CanAct(cfg, Peer(x), At(s, Peer(x)))
    requires Act(cfg, Peer(x), At(s, Peer(x)), s.mem).out <= future
    ensures var out := Act(cfg, Peer(x), At(s, Peer(x)), s.mem).out;
            Mirrors(cfg, Next(cfg, s, Core(Peer(x))), x, a, future[|out|..])
  {
    hide Act, SameView, PlanInside;
    var out := Act(cfg, Peer(x), At(s, Peer(x)), s.mem).out;
    assert future == out + future[|out|..];
    assert At(s, x).inbox + out + future[|out|..] == At(s, x).inbox + future;
  }

  /** So does an arrival at the peer, if it is no data for this core's buffers. */
  lemma PeerReceives(cfg: Config, s: State, x: Side, a: Local, future: seq<Write>)
    requires cfg.modulus > 0 && Mirrors(cfg, s, x, a, future) && BuffersFit(cfg, x, |s.mem|)
    requires At(s, Peer(x)).inbox != [] && Misses(cfg, x, At(s, Peer(x)).inbox[0])
    ensures Mirrors(cfg, Next(cfg, s, Arrive(Peer(x))), x, a, future)
  {
    hide SameView, PlanInside, Misses, BuffersFit, Poke;
    MissedView(cfg, x, s.mem, a.mem, At(s, Peer(x)).inbox[0]);
  }

  // ----- two behaviours

  /** A behaviour from the state after start-up; the writes that will arrive are in its inbox. */
  predicate FromStart(cfg: Config, x: Side, trace: seq<Local>, mem: seq<Byte>)
    requires cfg.modulus > 0
  {
    Behaviour(cfg, x, trace) && trace[0] == Local(FRESH_END.(inbox := trace[0].e.inbox), mem, [])
  }

  function Last(trace: seq<Local>): Local
    requires trace != []
  {
    trace[|trace| - 1]
  }

  /** The next step of the behaviour `a` may be made where the behaviour `b` stands: it is a step of its
      own core, or takes a write that the other has issued. All `total` writes of the other end are in
      the inbox from the beginning. */
  predicate InTime(cfg: Config, x: Side, a: seq<Local>, b: seq<Local>, total: nat)
    requires cfg.modulus > 0
  {
    |a| > 1 && b != [] && (Acts(cfg, x, a[0], a[1]) || |a[0].e.inbox| + |b[0].sent| > total)
  }

  /** Taken in these turns, both behaviours come to their ends, and no write arrives before it is issued. */
  predicate Woven(cfg: Config, a: seq<Local>, toTx: nat, b: seq<Local>, toRx: nat, turns: seq<Side>)
    requires cfg.modulus > 0
    decreases |turns|
  {
    if turns == [] then |a| == 1 && |b| == 1
    else if turns[0].Tx? then InTime(cfg, Tx, a, b, toTx) && Woven(cfg, a[1..], toTx, b, toRx, turns[1..])
    else InTime(cfg, Rx, b, a, toRx) && Woven(cfg, a, toTx, b[1..], toRx, turns[1..])
  }

  lemma {:induction false} SentGrows(cfg: Config, x: Side, trace: seq<Local>)
    requires cfg.modulus > 0 && Behaviour(cfg, x, trace)
    ensures trace[0].sent <= Last(trace).sent
    ensures |trace| > 1 ==> Behaviour(cfg, x, trace[1..]) && trace[0].sent <= trace[1].sent <= Last(trace).sent
    decreases |trace|
  {
    if |trace| > 1 {
      BehaviourRest(cfg, x, trace);
      SentGrows(cfg, x, trace[1..]);
      assert Last(trace[1..]) == Last(trace);
      assert Acts(cfg, x, trace[0], trace[1]) || Takes(trace[0], trace[1]);
    }
  }

  lemma BehaviourRest(cfg: Config, x: Side, trace: seq<Local>)
    requires cfg.modulus > 0 && Behaviour(cfg, x, trace) && |trace| > 1
    ensures Behaviour(cfg, x, trace[1..]) && trace[1..][0] == trace[1] && Last(trace[1..]) == Last(trace)
    ensures Acts(cfg, x, trace[0], trace[1]) || Takes(trace[0], trace[1])
  {
    hide Acts, Takes;
    var rest := trace[1..];
    forall i | 0 <= i < |rest| - 1 ensures Acts(cfg, x, rest[i], rest[i + 1]) || Takes(rest[i], rest[i + 1]) {
      assert rest[i] == trace[i + 1] && rest[i + 1] == trace[i + 1 + 1];
    }
  }

  lemma BehaviourCons(cfg: Config, x: Side, a: Local, rest: seq<Local>)
    requires cfg.modulus > 0 && Behaviour(cfg, x, rest) && (Acts(cfg, x, a, rest[0]) || Takes(a, rest[0]))
    ensures Behaviour(cfg, x, [a] + rest) && ([a] + rest)[1..] == rest && Last([a] + rest) == Last(rest)
  {
    hide Acts, Takes;
    var trace := [a] + rest;
    forall i | 0 <= i < |trace| - 1 ensures Acts(cfg, x, trace[i], trace[i + 1]) || Takes(trace[i], trace[i + 1]) {
      if i > 0 { assert trace[i] == rest[i - 1] && trace[i + 1] == rest[i - 1 + 1]; }
    }
  }

  /** Of all writes to an end, those that its peer has not issued yet. */
  function Rest(all: seq<Write>, sent: seq<Write>): seq<Write> {
    if |sent| <= |all| then all[|sent|..] else []
  }

  lemma RestSplits(all: seq<Write>, sent: seq<Write>, out: seq<Write>)
    requires sent + out <= all
    ensures Rest(all, sent) == out + Rest(all, sent + out)
  {
    assert all == sent + out + all[|sent + out|..];
  }

  /** No data on its way, or still to be issued, is for a buffer of its sender. */
  predicate Separate(cfg: Config, a: Local, b: Local) {
    (forall w :: w in a.e.inbox ==> Misses(cfg, Rx, w)) && forall w :: w in b.e.inbox ==> Misses(cfg, Tx, w)
  }

  /** That is so, or will turn out to be because the system is one of matched transfers. */
  predicate Tame(cfg: Config, s: State, a: Local, b: Local) {
    Separate(cfg, a, b) || (AllMove(cfg) && HandshakeAgreement.Agree(cfg, s))
  }

  lemma HeadMisses(cfg: Config, s: State, x: Side, a: Local, b: Local, future: seq<Write>)
    requires Tame(cfg, s, a, b) && Mirrors(cfg, s, x, if x.Tx? then a else b, future) && At(s, x).inbox != []
    ensures Misses(cfg, Peer(x), At(s, x).inbox[0])
  {
    hide Misses;
    var w := At(s, x).inbox[0];
    var mine := if x.Tx? then a else b;
    assert mine.e.inbox[0] == w && w in mine.e.inbox;
    if !Separate(cfg, a, b) { DataMisses(cfg, s, x); }
  }

  lemma DataMisses(cfg: Config, s: State, x: Side)
    requires HandshakeAgreement.Agree(cfg, s) && At(s, x).inbox != []
    ensures Misses(cfg, Peer(x), At(s, x).inbox[0])
  {
    HandshakeResults.WindowHolds(cfg, s);
    var w := At(s, x).inbox[0];
    if w.WData? {
      var r := cfg.rxCalls[s.rx.next];
      forall i | 0 <= i < |cfg.txCalls| ensures MissesBuffer(cfg, Tx, cfg.txCalls[i], w.at, |w.bytes|) {
        assert Apart(cfg, cfg.txCalls[i], r);
      }
    }
  }

  lemma TameStep(cfg: Config, s: State, st: Step, a: Local, b: Local, a': Local, b': Local)
    requires Tame(cfg, s, a, b) && Enabled(cfg, s, st) && cfg.modulus > 0
    requires forall w :: w in a'.e.inbox ==> w in a.e.inbox
    requires forall w :: w in b'.e.inbox ==> w in b.e.inbox
    ensures Tame(cfg, Next(cfg, s, st), a', b')
  {
    hide Misses, Next, Enabled;
    if !Separate(cfg, a, b) {
      HandshakeResults.TransfersArePrompt(cfg, s, st);
      HandshakeAgreementSteps.StepKeepsAgree(cfg, s, st);
    }
  }

  /** One step of one end, seen by both. */
  lemma BothMirror(cfg: Config, s: State, x: Side, a: Local, a': Local, future: seq<Write>, b: Local,
                   theirs: seq<Write>)
    requires cfg.modulus > 0 && BuffersFit(cfg, x, |s.mem|) && BuffersFit(cfg, Peer(x), |s.mem|)
    requires Mirrors(cfg, s, x, a, future) && Mirrors(cfg, s, Peer(x), b, theirs)
    requires Acts(cfg, x, a, a') || (Takes(a, a') && At(s, x).inbox != [] && Misses(cfg, Peer(x), At(s, x).inbox[0]))
    requires a.sent <= a'.sent && a'.sent[|a.sent|..] <= theirs
    ensures var st := if Acts(cfg, x, a, a') then Core(x) else Arrive(x);
            && Enabled(cfg, s, st)
            && var s' := Next(cfg, s, st);
               && |s'.mem| == |s.mem| && Mirrors(cfg, s', x, a', future)
               && Mirrors(cfg, s', Peer(x), b, theirs[|a'.sent| - |a.sent|..])
    ensures forall w :: w in a'.e.inbox ==> w in a.e.inbox
  {
    hide BuffersFit, Misses, Act, Next, SameView, PlanInside;
    LocalStepIsStep(cfg, s, x, a, a', future);
    InboxShrinks(cfg, x, a, a');
    if Acts(cfg, x, a, a') {
      SentOfStep(cfg, s, x, a, a', future);
      PeerIssues(cfg, s, Peer(x), b, theirs);
    } else {
      assert theirs[0..] == theirs;
      PeerReceives(cfg, s, Peer(x), b, theirs);
    }
  }

  lemma SentOfStep(cfg: Config, s: State, x: Side, a: Local, b: Local, future: seq<Write>)
    requires cfg.modulus > 0 && BuffersFit(cfg, x, |s.mem|) && Mirrors(cfg, s, x, a, future) && Acts(cfg, x, a, b)
    ensures CanAct(cfg, x, At(s, x)) && b.sent[|a.sent|..] == Act(cfg, x, At(s, x), s.mem).out
  {
    hide SameView, PlanInside, BuffersFit, Act;
    SameViewBack(cfg, x, s.mem, a.mem);
    ActSameView(cfg, x, a.e, At(s, x).inbox, a.mem, s.mem);
  }

  lemma InboxShrinks(cfg: Config, x: Side, a: Local, b: Local)
    requires cfg.modulus > 0 && (Acts(cfg, x, a, b) || Takes(a, b))
    ensures forall w :: w in b.e.inbox ==> w in a.e.inbox
  {
    if Acts(cfg, x, a, b) { ActKeepsRecord(cfg, x, a.e, a.mem); }
  }

  /** The system where the two behaviours stand. */
  predicate Joint(cfg: Config, s: State, a: Local, toTx: seq<Write>, b: Local, toRx: seq<Write>) {
    && BuffersFit(cfg, Tx, |s.mem|) && BuffersFit(cfg, Rx, |s.mem|)
    && Mirrors(cfg, s, Tx, a, Rest(toTx, b.sent)) && Mirrors(cfg, s, Rx, b, Rest(toRx, a.sent))
    && Tame(cfg, s, a, b)
  }

  lemma {:induction false} WovenIsRun(cfg: Config, s: State, a: seq<Local>, toTx: seq<Write>, b: seq<Local>,
                                      toRx: seq<Write>, turns: seq<Side>)
    returns (steps: seq<Step>)
    requires cfg.modulus > 0 && Behaviour(cfg, Tx, a) && Behaviour(cfg, Rx, b)
    requires Last(b).sent <= toTx && Last(a).sent <= toRx
    requires Joint(cfg, s, a[0], toTx, b[0], toRx) && Woven(cfg, a, |toTx|, b, |toRx|, turns)
    ensures Run(cfg, s, steps) && |steps| == |turns|
    ensures Joint(cfg, Exec(cfg, s, steps), Last(a), toTx, Last(b), toRx)
    decreases |turns|
  {
    hide Next, Enabled, Behaviour, Mirrors, BuffersFit, Tame;
    if turns == [] {
      steps := [];
    } else {
      var x := turns[0];
      var st;
      var rest;
      if x.Tx? {
        st := JointStep(cfg, s, Tx, a, toTx, b, toRx);
        rest := WovenIsRun(cfg, Next(cfg, s, st), a[1..], toTx, b, toRx, turns[1..]);
      } else {
        st := JointStep(cfg, s, Rx, b, toRx, a, toTx);
        rest := WovenIsRun(cfg, Next(cfg, s, st), a, toTx, b[1..], toRx, turns[1..]);
      }
      steps := [st] + rest;
      assert steps[1..] == rest;
    }
  }

  /** `Joint`, with the end `x` first. */
  predicate JointAt(cfg: Config, s: State, x: Side, mine: Local, toMe: seq<Write>, other: Local, toOther: seq<Write>) {
    if x.Tx? then Joint(cfg, s, mine, toMe, other, toOther) else Joint(cfg, s, other, toOther, mine, toMe)
  }

  /** One turn. */
  lemma JointStep(cfg: Config, s: State, x: Side, mine: seq<Local>, toMe: seq<Write>, other: seq<Local>,
                  toOther: seq<Write>)
    returns (st: Step)
    requires cfg.modulus > 0 && Behaviour(cfg, x, mine) && Behaviour(cfg, Peer(x), other)
    requires Last(other).sent <= toMe && Last(mine).sent <= toOther
    requires InTime(cfg, x, mine, other, |toMe|) && JointAt(cfg, s, x, mine[0], toMe, other[0], toOther)
    ensures Enabled(cfg, s, st)
    ensures Behaviour(cfg, x, mine[1..]) && mine[1..][0] == mine[1] && Last(mine[1..]) == Last(mine)
    ensures JointAt(cfg, Next(cfg, s, st), x, mine[1], toMe, other[0], toOther)
  {
    hide BuffersFit, Misses, Act, Next, SameView, PlanInside, Behaviour, Tame, Acts, Takes;
    var a, a', b := mine[0], mine[1], other[0];
    var future, theirs := Rest(toMe, b.sent), Rest(toOther, a.sent);
    SentGrows(cfg, Peer(x), other);
    SentGrows(cfg, x, mine);
    BehaviourRest(cfg, x, mine);
    var out := a'.sent[|a.sent|..];
    assert a.sent + out == a'.sent;
    RestSplits(toOther, a.sent, out);
    if At(s, x).inbox != [] {
      HeadMisses(cfg, s, x, if x.Tx? then a else b, if x.Tx? then b else a, future);
    }
    st := if Acts(cfg, x, a, a') then Core(x) else Arrive(x);
    BothMirror(cfg, s, x, a, a', future, b, theirs);
    if x.Tx? { TameStep(cfg, s, st, a, b, a', b); } else { TameStep(cfg, s, st, b, a, b, a'); }
  }

  // ----- refinement

  /** Behaviours of both ends from start-up: each is given what the other issues, and in these turns no
      write arrives before it is issued. */
  predicate Interleaving(cfg: Config, mem: seq<Byte>, a: seq<Local>, b: seq<Local>, turns: seq<Side>)
    requires cfg.modulus > 0
  {
    && FromStart(cfg, Tx, a, mem) && FromStart(cfg, Rx, b, mem)
    && Last(b).sent <= a[0].e.inbox && Last(a).sent <= b[0].e.inbox
    && Woven(cfg, a, |a[0].e.inbox|, b, |b[0].e.inbox|, turns)
  }

  /** Two behaviours of the endpoint programs from start-up, each given what the other issues, and taken
      in turns so that no write arrives before it is issued, are a run of the whole system, at whose end
      each core is where its behaviour ends. */
  lemma TracesAreRun(cfg: Config, mem: seq<Byte>, a: seq<Local>, b: seq<Local>, turns: seq<Side>)
    returns (steps: seq<Step>)
    requires WellFormed(cfg, |mem|) && Interleaving(cfg, mem, a, b, turns)
    requires AllMove(cfg) || Separate(cfg, a[0], b[0])
    ensures Run(cfg, Init(mem), steps) && |steps| == |turns|
    ensures var s := Exec(cfg, Init(mem), steps);
            && Mirrors(cfg, s, Tx, Last(a), a[0].e.inbox[|Last(b).sent|..])
            && Mirrors(cfg, s, Rx, Last(b), b[0].e.inbox[|Last(a).sent|..])
  {
    hide BuffersFit, Woven, Separate, AllMove, Exec, Mirrors, Acts, Takes;
    InitJoint(cfg, mem, a[0], b[0]);
    steps := WovenIsRun(cfg, Init(mem), a, a[0].e.inbox, b, b[0].e.inbox, turns);
  }

  lemma InitJoint(cfg: Config, mem: seq<Byte>, a: Local, b: Local)
    requires WellFormed(cfg, |mem|) && (AllMove(cfg) || Separate(cfg, a, b))
    requires a == Local(FRESH_END.(inbox := a.e.inbox), mem, []) && b == Local(FRESH_END.(inbox := b.e.inbox), mem, [])
    ensures Joint(cfg, Init(mem), a, a.e.inbox, b, b.e.inbox)
    ensures Mirrors(cfg, Init(mem), Tx, a, a.e.inbox) && Mirrors(cfg, Init(mem), Rx, b, b.e.inbox)
  {
    hide BuffersFit, Separate, AllMove, HandshakeAgreement.Agree;
    HandshakeAgreementSteps.InitAgrees(cfg, mem);
  }

  /** Steps of the two cores and arrivals: nothing but the endpoint programs. */
  predicate OnlyCalls(steps: seq<Step>) {
    forall i :: 0 <= i < |steps| ==> steps[i].Core? || steps[i].Arrive?
  }

  /** The writes that `x` issues in a run. */
  function Issued(cfg: Config, s: State, steps: seq<Step>, x: Side): seq<Write>
    requires cfg.modulus > 0 && Run(cfg, s, steps)
    decreases |steps|
  {
    if steps == [] then []
    else
      (if steps[0] == Core(x) then Act(cfg, x, At(s, x), s.mem).out else [])
      + Issued(cfg, Next(cfg, s, steps[0]), steps[1..], x)
  }

  /** A step of the whole system at `x` is a step of that core's behaviour. */
  lemma StepIsLocal(cfg: Config, s: State, st: Step, a: Local, future: seq<Write>) returns (b: Local)
    requires cfg.modulus > 0 && Enabled(cfg, s, st) && (st.Core? || st.Arrive?)
    requires BuffersFit(cfg, st.x, |s.mem|) && Mirrors(cfg, s, st.x, a, future)
    ensures if st.Core? then Acts(cfg, st.x, a, b) else Takes(a, b)
    ensures b.sent == a.sent + if st.Core? then Act(cfg, st.x, At(s, st.x), s.mem).out else []
  {
    hide SameView, PlanInside, BuffersFit, Act, Poke;
    if st.Core? {
      assert PlanInside(cfg, st.x, At(s, st.x)) by { PlanElsewhere(cfg, st.x, a.e, At(s, st.x)); }
      ActSameView(cfg, st.x, At(s, st.x), a.e.inbox, s.mem, a.mem);
      var move := Act(cfg, st.x, a.e, a.mem);
      b := Local(move.me, a.mem, a.sent + move.out);
    } else {
      b := Local(Land(a.e), LandInMemory(a.mem, a.e.inbox[0]), a.sent);
    }
  }

  lemma PlanElsewhere(cfg: Config, x: Side, e: End, e': End)
    requires PlanInside(cfg, x, e) && e' == e.(inbox := e'.inbox)
    ensures PlanInside(cfg, x, e')
  {
  }

  lemma TakesOnly(cfg: Config, x: Side, a: Local, b: Local)
    requires cfg.modulus > 0 && Takes(a, b)
    ensures !Acts(cfg, x, a, b)
  {
    if Acts(cfg, x, a, b) { ActKeepsRecord(cfg, x, a.e, a.mem); }
  }

  /** From `a` and `b` on, two behaviours that issue what the cores issue in the run, and end as it ends. */
  predicate Unwoven(cfg: Config, s: State, a: Local, b: Local, steps: seq<Step>, ta: seq<Local>, tb: seq<Local>,
                    turns: seq<Side>)
    requires cfg.modulus > 0 && Run(cfg, s, steps)
  {
    && Behaviour(cfg, Tx, ta) && ta[0] == a && Last(ta).sent == a.sent + Issued(cfg, s, steps, Tx)
    && Behaviour(cfg, Rx, tb) && tb[0] == b && Last(tb).sent == b.sent + Issued(cfg, s, steps, Rx)
    && Woven(cfg, ta, |Last(tb).sent|, tb, |Last(ta).sent|, turns) && |turns| == |steps|
    && Mirrors(cfg, Exec(cfg, s, steps), Tx, Last(ta), []) && Mirrors(cfg, Exec(cfg, s, steps), Rx, Last(tb), [])
  }

  lemma {:induction false} RunIsWoven(cfg: Config, s: State, a: Local, b: Local, steps: seq<Step>)
    returns (ta: seq<Local>, tb: seq<Local>, turns: seq<Side>)
    requires cfg.modulus > 0 && Run(cfg, s, steps) && OnlyCalls(steps)
    requires BuffersFit(cfg, Tx, |s.mem|) && BuffersFit(cfg, Rx, |s.mem|) && Tame(cfg, s, a, b)
    requires Mirrors(cfg, s, Tx, a, Issued(cfg, s, steps, Rx)) && Mirrors(cfg, s, Rx, b, Issued(cfg, s, steps, Tx))
    ensures Unwoven(cfg, s, a, b, steps, ta, tb, turns)
    decreases |steps|
  {
    hide Next, Enabled, Act, Acts, Takes, Mirrors, BuffersFit, Tame, Behaviour;
    if steps == [] {
      ta, tb, turns := [a], [b], [];
      BehaviourOne(cfg, Tx, a);
      BehaviourOne(cfg, Rx, b);
      assert a.sent + [] == a.sent && b.sent + [] == b.sent;
    } else {
      var st, rest := steps[0], steps[1..];
      var s' := Next(cfg, s, st);
      if st.x.Tx? {
        var a' := SplitStep(cfg, s, st, rest, a, b, a, b);
        ta, tb, turns := RunIsWoven(cfg, s', a', b, rest);
        BehaviourCons(cfg, Tx, a, ta);
        ta, turns := [a] + ta, [Tx] + turns;
      } else {
        var b' := SplitStep(cfg, s, st, rest, b, a, a, b);
        ta, tb, turns := RunIsWoven(cfg, s', a, b', rest);
        BehaviourCons(cfg, Rx, b, tb);
        tb, turns := [b] + tb, [Rx] + turns;
      }
    }
  }

  lemma BehaviourOne(cfg: Config, x: Side, a: Local)
    requires cfg.modulus > 0
    ensures Behaviour(cfg, x, [a])
  {
  }

  lemma MoreThanFuture(cfg: Config, s: State, x: Side, a: Local, future: seq<Write>)
    requires Mirrors(cfg, s, x, a, future) && At(s, x).inbox != []
    ensures |a.e.inbox| > |future|
  {
  }

  /** The first step of a run, split off the behaviour of the end that makes it. */
  lemma SplitStep(cfg: Config, s: State, st: Step, rest: seq<Step>, mine: Local, other: Local, a: Local, b: Local)
    returns (mine': Local)
    requires cfg.modulus > 0 && (st.Core? || st.Arrive?) && Run(cfg, s, [st] + rest)
    requires if st.x.Tx? then a == mine && b == other else a == other && b == mine
    requires BuffersFit(cfg, Tx, |s.mem|) && BuffersFit(cfg, Rx, |s.mem|) && Tame(cfg, s, a, b)
    requires Mirrors(cfg, s, st.x, mine, Issued(cfg, s, [st] + rest, Peer(st.x)))
    requires Mirrors(cfg, s, Peer(st.x), other, Issued(cfg, s, [st] + rest, st.x))
    ensures Enabled(cfg, s, st) && Run(cfg, Next(cfg, s, st), rest)
    ensures if st.Core? then Acts(cfg, st.x, mine, mine') else Takes(mine, mine')
    ensures mine'.sent + Issued(cfg, Next(cfg, s, st), rest, st.x) == mine.sent + Issued(cfg, s, [st] + rest, st.x)
    ensures Issued(cfg, Next(cfg, s, st), rest, Peer(st.x)) == Issued(cfg, s, [st] + rest, Peer(st.x))
    ensures var s' := Next(cfg, s, st);
            && |s'.mem| == |s.mem| && Mirrors(cfg, s', st.x, mine', Issued(cfg, s', rest, Peer(st.x)))
            && Mirrors(cfg, s', Peer(st.x), other, Issued(cfg, s', rest, st.x))
            && (if st.x.Tx? then Tame(cfg, s', mine', b) else Tame(cfg, s', a, mine'))
    ensures st.Arrive? ==> |mine.e.inbox| > |Issued(cfg, s, [st] + rest, Peer(st.x))|
  {
    hide Next, Act, Acts, Takes, Mirrors, BuffersFit, Tame, Misses;
    assert ([st] + rest)[1..] == rest;
    var s' := Next(cfg, s, st);
    var out := if st.Core? then Act(cfg, st.x, At(s, st.x), s.mem).out else [];
    mine' := StepIsLocal(cfg, s, st, mine, Issued(cfg, s, [st] + rest, Peer(st.x)));
    assert mine'.sent[|mine.sent|..] == out;
    if st.Arrive? {
      TakesOnly(cfg, st.x, mine, mine');
      MoreThanFuture(cfg, s, st.x, mine, Issued(cfg, s, [st] + rest, Peer(st.x)));
    }
    if At(s, st.x).inbox != [] { HeadMisses(cfg, s, st.x, a, b, Issued(cfg, s, [st] + rest, Peer(st.x))); }
    BothMirror(cfg, s, st.x, mine, mine', Issued(cfg, s, [st] + rest, Peer(st.x)), other,
      Issued(cfg, s, [st] + rest, st.x));
    if st.x.Tx? { TameStep(cfg, s, st, a, b, mine', b); } else { TameStep(cfg, s, st, a, b, a, mine'); }
  }

  /** And every run of the two endpoint programs comes from such behaviours: each core's own is given
      exactly what the other issues. */
  lemma RunIsTraces(cfg: Config, mem: seq<Byte>, steps: seq<Step>)
    returns (a: seq<Local>, b: seq<Local>, turns: seq<Side>)
    requires WellFormed(cfg, |mem|) && Run(cfg, Init(mem), steps) && OnlyCalls(steps)
    requires AllMove(cfg) || forall x, w :: w in Issued(cfg, Init(mem), steps, x) ==> Misses(cfg, x, w)
    ensures Interleaving(cfg, mem, a, b, turns) && |turns| == |steps|
    ensures Last(b).sent == a[0].e.inbox && Last(a).sent == b[0].e.inbox
    ensures var s := Exec(cfg, Init(mem), steps);
            Mirrors(cfg, s, Tx, Last(a), []) && Mirrors(cfg, s, Rx, Last(b), [])
  {
    hide BuffersFit, Misses, Mirrors, AllMove, HandshakeAgreement.Agree, Exec, Woven, Behaviour;
    var s := Init(mem);
    var first := Local(FRESH_END.(inbox := Issued(cfg, s, steps, Rx)), mem, []);
    var second := Local(FRESH_END.(inbox := Issued(cfg, s, steps, Tx)), mem, []);
    InitJoint(cfg, mem, first, second);
    a, b, turns := RunIsWoven(cfg, s, first, second, steps);
  }

  /** So two endpoint programs that make matched transfers deliver: the k-th completed receive of the one
      holds the message of the k-th send of the other, in front of what its buffer held before. */
  lemma TracesDeliver(cfg: Config, mem: seq<Byte>, a: seq<Local>, b: seq<Local>, turns: seq<Side>, k: nat)
    requires WellFormed(cfg, |mem|) && AllMove(cfg) && Interleaving(cfg, mem, a, b, turns)
    ensures k < |Last(b).e.log| ==>
              && k < |Last(a).e.snaps| && k < |Last(b).e.snaps| && k < |cfg.txCalls|
              && var message := Last(a).e.snaps[k];
                 && |message| == Size(cfg.txCalls[k]) <= |Last(b).e.snaps[k]|
                 && Last(b).e.log[k] == Entry(|message|, 0, message + Last(b).e.snaps[k][|message|..])
    ensures k < |Last(a).e.log| ==>
              && k < |Last(a).e.snaps| && k < |Last(b).e.snaps| && k < |cfg.txCalls|
              && Last(a).e.log[k] == Entry(Size(cfg.txCalls[k]), 0, Last(a).e.snaps[k])
  {
    hide Woven, Behaviour, AllMove, SameView, PlanInside, Exec, Init;
    var steps := TracesAreRun(cfg, mem, a, b, turns);
    HandshakeResults.ChannelTheorem(cfg, mem, steps);
    var s := Exec(cfg, Init(mem), steps);
    if k < |s.rx.log| { assert HandshakeResults.ReceiveDone(cfg, s, k); }
    if k < |s.tx.log| { assert HandshakeResults.SendDone(cfg, s, k); }
  }
}
