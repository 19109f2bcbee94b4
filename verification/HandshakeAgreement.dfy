/** The two ends agree: as long as no control word misleads a reader that it overtakes, every run of
    the step machine does what Rendezvous says, on both ends, bytes included. */
module HandshakeAgreement {
  import opened CopyPlan
  import opened Handshake
  import opened HandshakeSkew
  import opened Rendezvous

  // ----- one direction's writes

  /** Bytes of the k-th message that its sender has written when it is done with it. */
  function Full(cfg: Config, y: Side, k: nat): nat {
    if y.Tx? && Phases(cfg, k) == 2 && k < |cfg.txCalls| then Size(cfg.txCalls[k]) else 0
  }

  /** `w` is a write that `y` may make after the writes counted by `v`. The messages are those in
      `sent`, one for each call of the sending end. */
  predicate Legal(cfg: Config, y: Side, sent: seq<seq<Byte>>, v: View, w: Write) {
    var calls := Calls(cfg, y);
    match w
    case WAddr(a) =>
      v.ctls < |calls| && v.n == Base(cfg, v.ctls) && calls[v.ctls].Transfer? && a == Buffer(cfg, y, calls[v.ctls])
    case WCtl(c) =>
      && v.ctls < |calls| && v.n == Base(cfg, v.ctls) && c == Control(calls[v.ctls])
      && (calls[v.ctls].Transfer? ==> v.addrs == v.ctls + 1)
      && (v.ctls > 0 ==> v.d == Full(cfg, y, v.ctls - 1))
    case WSeq(_) =>
      && v.ctls > 0 && Base(cfg, v.ctls - 1) <= v.n < Base(cfg, v.ctls)
      && (v.n > Base(cfg, v.ctls - 1) ==> v.d == Full(cfg, y, v.ctls - 1))
    case WData(at, bytes) =>
      && y.Tx? && 0 < v.ctls <= |sent| && v.ctls <= |cfg.rxCalls|
      && LegalData(cfg, sent[v.ctls - 1], v, at, bytes)
  }

  predicate LegalData(cfg: Config, message: seq<Byte>, v: View, at: nat, bytes: seq<Byte>)
    requires 0 < v.ctls <= |cfg.rxCalls|
  {
    var k := v.ctls - 1;
    && Phases(cfg, k) == 2 && v.n == Base(cfg, k) + 1
    && at == Buffer(cfg, Rx, cfg.rxCalls[k]) + v.d
    && 0 < |bytes| && v.d + |bytes| <= |message| && bytes == message[v.d..v.d + |bytes|]
    && |message| == Full(cfg, Tx, k)
  }

  /** The writes in `q` lead legally from the counts `v` to the counts `total`. */
  predicate Leads(cfg: Config, y: Side, sent: seq<seq<Byte>>, v: View, q: seq<Write>, total: View)
    decreases |q|
  {
    if q == [] then v == total
    else Legal(cfg, y, sent, v, q[0]) && Leads(cfg, y, sent, After(v, q[0]), q[1..], total)
  }

  /** What legal writes keep true of the counts. */
  predicate GoodView(cfg: Config, y: Side, v: View) {
    && v.ctls <= |Calls(cfg, y)|
    && v.addrs <= v.ctls + 1
    && (v.ctls == 0 ==> v.n == 0 && v.d == 0)
    && (v.ctls > 0 ==>
          && Base(cfg, v.ctls - 1) <= v.n <= Base(cfg, v.ctls)
          && v.d <= Full(cfg, y, v.ctls - 1)
          && (v.n == Base(cfg, v.ctls - 1) ==> v.d == 0)
          && (v.n > Base(cfg, v.ctls - 1) + 1 ==> v.d == Full(cfg, y, v.ctls - 1))
          && (Calls(cfg, y)[v.ctls - 1].Transfer? ==> v.addrs >= v.ctls))
  }

  lemma GoodAfter(cfg: Config, y: Side, sent: seq<seq<Byte>>, v: View, w: Write)
    requires GoodView(cfg, y, v) && Legal(cfg, y, sent, v, w)
    ensures GoodView(cfg, y, After(v, w))
    ensures v.n <= After(v, w).n && v.ctls <= After(v, w).ctls && v.addrs <= After(v, w).addrs
    ensures v.ctls == After(v, w).ctls ==> v.d <= After(v, w).d
  {
    BaseMono(cfg, v.ctls, v.ctls + 1);
  }

  lemma {:induction false} LeadsMono(cfg: Config, y: Side, sent: seq<seq<Byte>>, v: View, q: seq<Write>, total: View)
    requires GoodView(cfg, y, v) && Leads(cfg, y, sent, v, q, total)
    ensures GoodView(cfg, y, total)
    ensures v.n <= total.n && v.ctls <= total.ctls && v.addrs <= total.addrs
    ensures v.ctls == total.ctls ==> v.d <= total.d
    decreases |q|
  {
    if q != [] {
      GoodAfter(cfg, y, sent, v, q[0]);
      LeadsMono(cfg, y, sent, After(v, q[0]), q[1..], total);
    }
  }

  lemma {:induction false} LeadsAppend(cfg: Config, y: Side, sent: seq<seq<Byte>>, v: View, q: seq<Write>,
                                       total: View, w: Write)
    requires Leads(cfg, y, sent, v, q, total) && Legal(cfg, y, sent, total, w)
    ensures Leads(cfg, y, sent, v, q + [w], After(total, w))
    decreases |q|
  {
    if q == [] {
      assert q + [w] == [w] && [w][1..] == [];
      assert Leads(cfg, y, sent, After(v, w), [], After(total, w));
    } else {
      LeadsAppend(cfg, y, sent, After(v, q[0]), q[1..], total, w);
      assert (q + [w])[1..] == q[1..] + [w];
    }
  }

  /** Starting another call does not disturb what is on its way. */
  lemma {:induction false} LeadsSentMore(cfg: Config, y: Side, sent: seq<seq<Byte>>, more: seq<seq<Byte>>,
                                         v: View, q: seq<Write>, total: View)
    requires Leads(cfg, y, sent, v, q, total)
    ensures Leads(cfg, y, sent + more, v, q, total)
    decreases |q|
  {
    if q != [] { LeadsSentMore(cfg, y, sent, more, After(v, q[0]), q[1..], total); }
  }

  // ----- where an end is

  function PrevFull(cfg: Config, x: Side, k: nat): nat {
    if k == 0 then 0 else Full(cfg, x, k - 1)
  }

  predicate BeforePublish(pc: Pc) {
    pc.Idle? || pc.PutAddr? || pc.PutCtl? || pc.PutSeq?
  }

  predicate FirstPhase(pc: Pc) {
    BeforePublish(pc) || pc.Await1? || pc.GetCtl?
  }

  predicate Sending(pc: Pc) {
    pc.GetDest? || pc.GetAlign? || pc.Copy?
  }

  /** The end is where the rendezvous of the k-th calls says it can be. */
  predicate Place(cfg: Config, x: Side, e: End) {
    Position(cfg, x, e) && OutBytes(cfg, x, e)
  }

  predicate Position(cfg: Config, x: Side, e: End) {
    var k, calls := e.next, Calls(cfg, x);
    && k <= |calls| && (!e.pc.Idle? ==> k < |calls|)
    && |e.log| == k && |e.snaps| == (if e.pc.Idle? then k else k + 1)
    && e.comp == Base(cfg, k) + (if FirstPhase(e.pc) then 0 else 1)
    && (!FirstPhase(e.pc) ==> Phases(cfg, k) == 2)
    && (Sending(e.pc) ==> x.Tx?)
    && e.out.ctls == (if e.pc.Idle? || e.pc.PutAddr? || e.pc.PutCtl? then k else k + 1)
    && (e.pc.PutAddr? ==> calls[k].Transfer?)
    && (!e.pc.Idle? && !e.pc.PutAddr? && calls[k].Transfer? ==> e.out.addrs == k + 1)
    && e.out.addrs <= (if e.pc.Idle? || e.pc.PutAddr? then k else k + 1)
  }

  predicate OutBytes(cfg: Config, x: Side, e: End) {
    var k := e.next;
    if e.pc.Idle? || e.pc.PutAddr? || e.pc.PutCtl? then e.out.d == PrevFull(cfg, x, k)
    else if FirstPhase(e.pc) || e.pc.GetDest? || e.pc.GetAlign? then e.out.d == 0
    else if e.pc.Copy? then k < |Calls(cfg, x)| && Tiles(e.plan, e.out.d, Size(Calls(cfg, x)[k]))
    else e.out.d == Full(cfg, x, k)
  }

  /** The local variables that carry what was learned from the peer. */
  predicate Learned(cfg: Config, x: Side, e: End) {
    var k := e.next;
    !FirstPhase(e.pc) && k < |cfg.txCalls| && k < |cfg.rxCalls| ==>
      var to := Buffer(cfg, Rx, cfg.rxCalls[k]);
      && (e.pc.GetAlign? || e.pc.Copy? ==> e.dest == to)
      && (e.pc.Copy? ==> Natural(e.plan, Buffer(cfg, Tx, cfg.txCalls[k]), to))
      && (x.Rx? ==> e.dest == Size(cfg.txCalls[k]))
  }

  /** The end has what it waits for in its first wait, or is about to read what it was given. */
  predicate AnswerPending(e: End) {
    e.pc.GetCtl? || (e.pc.Await1? && e.arrived.n == e.out.n)
  }

  /** Reading the control word of the peer's next call leads the k-th call to the same outcome. */
  predicate Harmless(cfg: Config, x: Side, k: nat) {
    && k < |Calls(cfg, x)| && k + 1 < |Calls(cfg, Peer(x))|
    && var mine := Calls(cfg, x)[k];
       ExpectedError(x, mine, Calls(cfg, Peer(x))[k + 1]) == ExpectedError(x, mine, Calls(cfg, Peer(x))[k])
  }

  /** With `ctls` control words arrived, the latest answers the k-th call: it is the partner's, or the
      next one, which does no harm. */
  predicate AnswerOk(cfg: Config, x: Side, k: nat, ctls: nat) {
    ctls == k + 1 || (ctls == k + 2 && Phases(cfg, k) == 1 && Harmless(cfg, x, k))
  }

  /** The words of the endpoint are those of the peer's calls, the latest to have arrived; and a
      pending answer answers this call. */
  predicate Heard(cfg: Config, x: Side, e: End, sent: seq<seq<Byte>>, peerOut: View) {
    var peer := Calls(cfg, Peer(x));
    && GoodView(cfg, Peer(x), e.arrived)
    && Leads(cfg, Peer(x), sent, e.arrived, e.inbox, peerOut)
    && (e.arrived.ctls > 0 ==> e.ctlFromPeer == Control(peer[e.arrived.ctls - 1]))
    && (0 < e.arrived.addrs <= |peer| ==> e.addrFromPeer == Buffer(cfg, Peer(x), peer[e.arrived.addrs - 1]))
    && (AnswerPending(e) ==> AnswerOk(cfg, x, e.next, e.arrived.ctls))
  }

  // ----- buffers and results

  /** How much of the k-th message is in the receiver's memory. */
  function Landed(cfg: Config, k: nat, v: View): nat {
    if v.ctls <= k then 0 else if v.ctls == k + 1 then v.d else Full(cfg, Tx, k)
  }

  function PartlyReceived(sent: seq<seq<Byte>>, k: nat, landed: nat, before: seq<Byte>): seq<Byte> {
    if 0 < landed <= |before| && k < |sent| && landed <= |sent[k]| then sent[k][..landed] + before[landed..] else before
  }

  /** One buffer size per call begun. */
  predicate SnapSizes(calls: seq<Call>, snaps: seq<seq<Byte>>) {
    |snaps| <= |calls| && forall j :: 0 <= j < |snaps| ==> |snaps[j]| == Size(calls[j])
  }

  /** During a call, the send buffer holds the message; the receive buffer holds what has landed of
      it, in front of its old contents. */
  predicate TxBuffer(cfg: Config, e: End, mem: seq<Byte>) {
    e.pc.Idle? ||
    (e.next < |cfg.txCalls| && |e.snaps| == e.next + 1 &&
     var c := cfg.txCalls[e.next];
     Slice(mem, Buffer(cfg, Tx, c), Size(c)) == e.snaps[e.next])
  }

  predicate RxBuffer(cfg: Config, e: End, mem: seq<Byte>, sent: seq<seq<Byte>>) {
    e.pc.Idle? ||
    (e.next < |cfg.rxCalls| && |e.snaps| == e.next + 1 &&
     var c := cfg.rxCalls[e.next];
     Slice(mem, Buffer(cfg, Rx, c), Size(c))
     == PartlyReceived(sent, e.next, Landed(cfg, e.next, e.arrived), e.snaps[e.next]))
  }

  /** The j-th call of the end returned what the rendezvous of the j-th calls prescribes. */
  predicate EntryOk(cfg: Config, x: Side, j: nat, entry: Entry, before: seq<Byte>, sent: seq<seq<Byte>>) {
    && j < |cfg.txCalls| && j < |cfg.rxCalls| && j < |sent|
    && var t, r := cfg.txCalls[j], cfg.rxCalls[j];
       var mine, theirs := if x.Tx? then t else r, if x.Tx? then r else t;
    && entry.ret == ExpectedReturn(x, mine, theirs) && entry.error == ExpectedError(x, mine, theirs)
    && |sent[j]| == Size(t) && |before| == Size(mine)
    && entry.final == (if x.Tx? then before else Received(t, r, sent[j], before))
  }

  predicate Results(cfg: Config, x: Side, e: End, sent: seq<seq<Byte>>) {
    && e.next <= |e.snaps| && |e.log| == e.next
    && forall j :: 0 <= j < e.next ==> EntryOk(cfg, x, j, e.log[j], e.snaps[j], sent)
  }

  /** Positions, words and writes on their way agree at both ends. */
  predicate Linked(cfg: Config, s: State) {
    && cfg.modulus >= 2 && SkewInv(cfg, s)
    && Place(cfg, Tx, s.tx) && Place(cfg, Rx, s.rx)
    && Heard(cfg, Tx, s.tx, s.tx.snaps, s.rx.out) && Heard(cfg, Rx, s.rx, s.tx.snaps, s.tx.out)
  }

  /** Buffers and results agree as well. */
  predicate Contents(cfg: Config, s: State) {
    && Learned(cfg, Tx, s.tx) && Learned(cfg, Rx, s.rx)
    && SnapSizes(cfg.txCalls, s.tx.snaps) && SnapSizes(cfg.rxCalls, s.rx.snaps)
    && TxBuffer(cfg, s.tx, s.mem) && RxBuffer(cfg, s.rx, s.mem, s.tx.snaps)
    && Results(cfg, Tx, s.tx, s.tx.snaps) && Results(cfg, Rx, s.rx, s.tx.snaps)
  }

  predicate Agree(cfg: Config, s: State) {
    WellFormed(cfg, |s.mem|) && Linked(cfg, s) && Contents(cfg, s)
  }

  /** No control word takes effect at an end that has its answer but has not read it. */
  predicate CtlPrompt(s: State, st: Step) {
    st.Arrive? && At(s, st.x).inbox != [] && At(s, st.x).inbox[0].WCtl? ==> !AnswerPending(At(s, st.x))
  }

  /** If one does, its reader decides as it would have decided otherwise. */
  predicate Orderly(cfg: Config, s: State, st: Step) {
    CtlPrompt(s, st) || (st.Arrive? && Harmless(cfg, st.x, At(s, st.x).next))
  }

  // ----- what the position of one end says about the other

  lemma WhereOut(cfg: Config, x: Side, e: End)
    requires cfg.modulus >= 2 && Place(cfg, x, e) && SkewCore(cfg, x, e)
    ensures Base(cfg, e.next + 1) == Base(cfg, e.next) + Phases(cfg, e.next)
    ensures Base(cfg, e.next) <= e.comp <= e.out.n <= Base(cfg, e.next + 1)
    ensures BeforePublish(e.pc) ==> e.out.n == Base(cfg, e.next)
    ensures e.pc.Await1? || e.pc.GetCtl? ==> e.out.n == Base(cfg, e.next) + 1
    ensures !FirstPhase(e.pc) ==> e.comp == Base(cfg, e.next) + 1 && Base(cfg, e.next + 1) == e.comp + 1
  {
    BaseMono(cfg, e.next, e.next + 1);
  }

  /** The counts that have arrived determine the call they belong to. */
  lemma ArrivedCall(cfg: Config, y: Side, v: View, k: nat)
    requires GoodView(cfg, y, v)
    ensures v.n > Base(cfg, k) ==> v.ctls > k
    ensures v.ctls > k ==> v.n >= Base(cfg, k)
    ensures v.ctls > k + 1 ==> v.n >= Base(cfg, k + 1)
  {
    if v.ctls > 0 {
      if v.ctls < k { BaseMono(cfg, v.ctls, k); }
      if k < v.ctls - 1 { BaseMono(cfg, k, v.ctls - 1); }
    } else if k > 0 {
      BaseMono(cfg, 0, k);
    }
  }

  /** The control word that the k-th call needs, or one that does as well. */
  predicate ControlOk(cfg: Config, x: Side, k: nat, ctl: nat) {
    var peer := Calls(cfg, Peer(x));
    && k < |peer|
    && (ctl == Control(peer[k]) || (Phases(cfg, k) == 1 && Harmless(cfg, x, k) && ctl == Control(peer[k + 1])))
  }

  lemma ControlAnswers(cfg: Config, s: State, x: Side)
    requires Linked(cfg, s) && At(s, x).pc.GetCtl?
    ensures ControlOk(cfg, x, At(s, x).next, At(s, x).ctlFromPeer)
  {
  }

  /** While the sender has published its first phase only, a receiver that has answered is inside
      the same call. */
  lemma SameCall(cfg: Config, s: State)
    requires Linked(cfg, s) && Sending(s.tx.pc)
    ensures s.rx.next == s.tx.next && !BeforePublish(s.rx.pc)
  {
    var k := s.tx.next;
    SkewBounds(cfg, s);
    WhereOut(cfg, Tx, s.tx);
    WhereOut(cfg, Rx, s.rx);
    if s.rx.next > k + 1 { BaseMono(cfg, k + 1, s.rx.next); }
    if s.rx.next < k { BaseMono(cfg, s.rx.next, k); }
  }

  /** While the sender looks it up, the address word is that of the receive it is serving. */
  lemma AddressIsPartners(cfg: Config, s: State)
    requires Linked(cfg, s) && Sending(s.tx.pc)
    ensures s.tx.next < |cfg.rxCalls| && s.tx.addrFromPeer == Buffer(cfg, Rx, cfg.rxCalls[s.tx.next])
  {
    var k := s.tx.next;
    SameCall(cfg, s);
    WhereOut(cfg, Tx, s.tx);
    ArrivedCall(cfg, Rx, s.tx.arrived, k);
    LeadsMono(cfg, Rx, s.tx.snaps, s.tx.arrived, s.tx.inbox, s.rx.out);
    assert s.tx.arrived.ctls == k + 1;
    assert cfg.rxCalls[k].Transfer?;
  }

  /** Bytes of the k-th message are written, and land, only after the receiver's k-th call has
      published its buffer. */
  lemma BytesFollowPublish(cfg: Config, s: State, k: nat, v: View)
    requires Linked(cfg, s)
    requires v.ctls == k + 1 && v.d > 0 && v.ctls <= s.tx.out.ctls && (v.ctls == s.tx.out.ctls ==> v.d <= s.tx.out.d)
    ensures s.rx.out.n >= Base(cfg, k) + 1
  {
    SkewBounds(cfg, s);
    WhereOut(cfg, Tx, s.tx);
    if s.tx.next >= k + 1 {
      BaseMono(cfg, k, s.tx.next);
    } else {
      assert s.tx.next == k && s.tx.out.d > 0;
    }
  }

  lemma NothingLandedYet(cfg: Config, s: State)
    requires Linked(cfg, s) && BeforePublish(s.rx.pc)
    ensures Landed(cfg, s.rx.next, s.rx.arrived) == 0
  {
    var k, v := s.rx.next, s.rx.arrived;
    SkewBounds(cfg, s);
    WhereOut(cfg, Rx, s.rx);
    ArrivedCall(cfg, Tx, v, k);
    LeadsMono(cfg, Tx, s.tx.snaps, v, s.rx.inbox, s.tx.out);
    if v.ctls == k + 1 && v.d > 0 { BytesFollowPublish(cfg, s, k, v); }
  }

  lemma AllLanded(cfg: Config, s: State)
    requires Linked(cfg, s) && s.rx.pc.Await2? && s.rx.arrived.n == s.rx.out.n
    ensures Landed(cfg, s.rx.next, s.rx.arrived) == Full(cfg, Tx, s.rx.next)
  {
    WhereOut(cfg, Rx, s.rx);
    ArrivedCall(cfg, Tx, s.rx.arrived, s.rx.next);
  }

  /** Bytes arrive at the receiver only between its first publication and its return, for the call
      it is inside of, at the place in its buffer that comes next. */
  lemma BytesArriveInWindow(cfg: Config, s: State)
    requires Linked(cfg, s) && s.rx.inbox != [] && s.rx.inbox[0].WData?
    ensures var k, w := s.rx.next, s.rx.inbox[0];
            && !BeforePublish(s.rx.pc) && k < |s.tx.snaps| && k < |cfg.rxCalls| && s.rx.arrived.ctls == k + 1
            && LegalData(cfg, s.tx.snaps[k], s.rx.arrived, w.at, w.bytes)
  {
    hide GoodView, OutBytes, SkewIn, Base;
    var v, w := s.rx.arrived, s.rx.inbox[0];
    var k := v.ctls - 1;
    assert Legal(cfg, Tx, s.tx.snaps, v, w);
    GoodAfter(cfg, Tx, s.tx.snaps, v, w);
    LeadsMono(cfg, Tx, s.tx.snaps, After(v, w), s.rx.inbox[1..], s.tx.out);
    BytesFollowPublish(cfg, s, k, After(v, w));
    SkewBounds(cfg, s);
    InsideCall(cfg, s.rx, k);
  }

  lemma InsideCall(cfg: Config, e: End, k: nat)
    requires cfg.modulus >= 2 && Place(cfg, Rx, e) && SkewCore(cfg, Rx, e) && Phases(cfg, k) == 2
    requires e.comp <= Base(cfg, k) + 1 <= e.out.n
    ensures e.next == k && !BeforePublish(e.pc)
  {
    WhereOut(cfg, Rx, e);
    BaseMono(cfg, k, k + 1);
    if e.next < k { BaseMono(cfg, e.next, k); }
    if e.next > k { BaseMono(cfg, k, e.next); }
  }

  // ----- control words on their way

  /** The control word of a call is issued only when the calls before it are complete. */
  lemma ControlFollowsCalls(cfg: Config, s: State, x: Side)
    requires Linked(cfg, s) && At(s, x).inbox != [] && At(s, x).inbox[0].WCtl?
    ensures var e, p := At(s, x), At(s, Peer(x));
            && e.arrived.ctls < |Calls(cfg, Peer(x))| && e.arrived.n == Base(cfg, e.arrived.ctls)
            && e.inbox[0].c == Control(Calls(cfg, Peer(x))[e.arrived.ctls])
            && Base(cfg, e.arrived.ctls) <= p.comp
  {
    hide Legal, Leads, GoodView, Place, SkewInv, SkewCore, Position, OutBytes;
    var e, p := At(s, x), At(s, Peer(x));
    ControlIsNext(cfg, Peer(x), s.tx.snaps, e.arrived, e.inbox, p.out);
    LinkedPeer(cfg, s, x);
    WhereOut(cfg, Peer(x), p);
    if p.next > e.arrived.ctls { BaseMono(cfg, e.arrived.ctls, p.next); }
  }

  lemma LinkedPeer(cfg: Config, s: State, x: Side)
    requires Linked(cfg, s)
    ensures var p := At(s, Peer(x));
            Place(cfg, Peer(x), p) && SkewCore(cfg, Peer(x), p)
            && p.out.ctls <= p.next + (if p.pc.Idle? then 0 else 1)
            && p.out.ctls <= p.next + (if BeforePublish(p.pc) && !p.pc.PutSeq? then 0 else 1)
  {
    hide Heard, Numbered;
  }

  /** A control word at the head of the inbox is that of the next call to arrive, and has been counted. */
  lemma ControlIsNext(cfg: Config, y: Side, sent: seq<seq<Byte>>, v: View, q: seq<Write>, total: View)
    requires GoodView(cfg, y, v) && Leads(cfg, y, sent, v, q, total) && q != [] && q[0].WCtl?
    ensures v.ctls < |Calls(cfg, y)| && v.n == Base(cfg, v.ctls) && q[0].c == Control(Calls(cfg, y)[v.ctls])
    ensures v.ctls < total.ctls && v.n <= total.n
  {
    assert Legal(cfg, y, sent, v, q[0]);
    GoodAfter(cfg, y, sent, v, q[0]);
    LeadsMono(cfg, y, sent, After(v, q[0]), q[1..], total);
  }

  /** A control word can only overtake an answer to a call that takes one phase. */
  lemma OvertakingIsNextCall(cfg: Config, s: State, x: Side)
    requires Linked(cfg, s) && At(s, x).inbox != [] && At(s, x).inbox[0].WCtl? && AnswerPending(At(s, x))
    ensures var e := At(s, x);
            && e.arrived.n == e.out.n && e.next + 1 < |Calls(cfg, Peer(x))| && Phases(cfg, e.next) == 1
            && e.inbox[0].c == Control(Calls(cfg, Peer(x))[e.next + 1])
  {
    ControlFollowsCalls(cfg, s, x);
    SkewBounds(cfg, s);
    WhereOut(cfg, x, At(s, x));
  }
}
