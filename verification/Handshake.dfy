/** The two ends of one connection as a step machine: the calls x_sync, x_sync_send and
    x_sync_receive, cut into their single reads and writes of shared words.

    A core writes to its peer without waiting, so a write is first issued and takes effect
    later: every end has an inbox holding the writes of its peer that are still on their way.
    They take effect one at a time, in the order in which they were issued. Immediate effect is
    the special case in which each issued write arrives before anything else happens. */
module Handshake {
  import opened CopyPlan

  /** The sending endpoint and the receiving endpoint of a connection. */
  datatype Side = Tx | Rx

  function Peer(x: Side): Side {
    if x.Tx? then Rx else Tx
  }

  /** A call that passes the endpoint mode test. At the sending end a transfer is a send, at the
      receiving end a receive. A call that fails the test touches nothing; see Misuse. */
  datatype Call = Sync | Transfer(buf: nat, size: nat)

  const SYNC_CONTROL: nat := 0

  const X_SUCCESS: int := 0
  const X_ERROR: int := -1
  const X_E_SYNC_TRANSFER_MISMATCH: int := -30012
  const X_E_SEND_TOO_BIG_FOR_RECEIVE_BUFFER: int := -30013
  const X_E_INVALID_TRANSFER_SIZE: int := -30014

  /** What stays fixed during a run: where sequence numbers roll over (2^32 in the program), the
      coreid bits of both cores, and the calls each core is going to make. */
  datatype Config = Config(modulus: nat, txBits: nat, rxBits: nat, txCalls: seq<Call>, rxCalls: seq<Call>)

  function Calls(cfg: Config, x: Side): seq<Call> {
    if x.Tx? then cfg.txCalls else cfg.rxCalls
  }

  /** An address within the core's own megabyte is made global by adding its coreid bits. */
  function Globalise(bits: nat, a: nat): nat {
    if a / 0x10_0000 == 0 then a + bits else a
  }

  function Buffer(cfg: Config, x: Side, c: Call): nat {
    if c.Sync? then 0 else Globalise(if x.Tx? then cfg.txBits else cfg.rxBits, c.buf)
  }

  function Size(c: Call): nat {
    if c.Sync? then 0 else c.size
  }

  function Control(c: Call): nat {
    if c.Sync? then SYNC_CONTROL else c.size
  }

  /** A write to the peer's endpoint record, or to the receiver's memory. */
  datatype Write = WAddr(a: nat) | WCtl(c: nat) | WSeq(q: nat) | WData(at: nat, bytes: seq<Byte>)

  /** Auxiliary, unbounded counts of one direction's writes: sequence words, control words, the
      call (plus one) of the last address word, and bytes of the current message. */
  datatype View = View(n: nat, ctls: nat, addrs: nat, d: nat)

  function After(v: View, w: Write): View {
    match w
    case WAddr(_) => v.(addrs := v.ctls + 1)
    case WCtl(_) => v.(ctls := v.ctls + 1, d := 0)
    case WSeq(_) => v.(n := v.n + 1)
    case WData(_, bytes) => v.(d := v.d + |bytes|)
  }

  datatype Pc =
    | Idle      // between calls
    | PutAddr   // about to write address_from_peer
    | PutCtl    // about to write control_from_peer
    | PutSeq    // about to write sequence_from_peer
    | Await1    // in the first wait loop
    | GetCtl    // about to read the control word
    | GetDest   // sender, about to read the destination address
    | GetAlign  // sender, about to read it again for the alignment test
    | Copy      // sender, in the copy loops
    | PutSeq2   // about to signal completion
    | Await2    // in the second wait loop

  /** What a finished call left behind: its return value, the error it recorded (0 for none) and
      the contents of its buffer when it returned. */
  datatype Entry = Entry(ret: int, error: int, final: seq<Byte>)

  datatype End = End(
    // the endpoint record
    seqFromPeer: nat, ctlFromPeer: nat, addrFromPeer: nat, sequence: nat,
    // issued by the peer, not yet in effect
    inbox: seq<Write>,
    // the core: position in the current call, and its local variables
    pc: Pc, newSeq: nat, dest: nat, plan: seq<Access>,
    // auxiliary: calls finished, phases completed, writes issued and arrived, buffer contents at
    // the start of each call, results
    next: nat, comp: nat, out: View, arrived: View, snaps: seq<seq<Byte>>, log: seq<Entry>)

  datatype State = State(tx: End, rx: End, mem: seq<Byte>)

  function At(s: State, x: Side): End {
    if x.Tx? then s.tx else s.rx
  }

  function With(s: State, x: Side, e: End): State {
    if x.Tx? then s.(tx := e) else s.(rx := e)
  }

  const NOTHING_YET: View := View(0, 0, 0, 0)

  /** An endpoint as start-up leaves it, its core between calls. */
  const FRESH_END: End := End(0, 0, 0, 0, [], Idle, 0, 0, [], 0, 0, NOTHING_YET, NOTHING_YET, [], [])

  function Init(mem: seq<Byte>): State {
    State(FRESH_END, FRESH_END, mem)
  }

  // ----- what one core does next

  datatype Move = Move(me: End, out: seq<Write>)

  predicate CanAct(cfg: Config, x: Side, e: End) {
    match e.pc
    case Idle => e.next < |Calls(cfg, x)|
    case Await1 => e.next < |Calls(cfg, x)| && e.seqFromPeer == e.newSeq
    case Await2 => e.next < |Calls(cfg, x)| && e.seqFromPeer == e.newSeq
    case _ => e.next < |Calls(cfg, x)|
  }

  function CallOf(cfg: Config, x: Side, e: End): Call
    requires e.next < |Calls(cfg, x)|
  {
    Calls(cfg, x)[e.next]
  }

  function Silent(e: End): Move {
    Move(e, [])
  }

  function Issue(e: End, w: Write): Move {
    Move(e.(out := After(e.out, w)), [w])
  }

  function Return(cfg: Config, x: Side, e: End, mem: seq<Byte>, ret: int, error: int): Move
    requires e.next < |Calls(cfg, x)|
  {
    var c := CallOf(cfg, x, e);
    Silent(e.(pc := Idle, next := e.next + 1,
              log := e.log + [Entry(ret, error, Slice(mem, Buffer(cfg, x, c), Size(c)))]))
  }

  /** The tests after the first synchronisation, in the order of the program. */
  function Decide(cfg: Config, x: Side, e: End, mem: seq<Byte>, fromPeer: nat): Move
    requires e.next < |Calls(cfg, x)|
  {
    var c := CallOf(cfg, x, e);
    if c.Sync? then
      if fromPeer != SYNC_CONTROL then Return(cfg, x, e, mem, X_ERROR, X_E_SYNC_TRANSFER_MISMATCH)
      else Return(cfg, x, e, mem, X_SUCCESS, 0)
    else if c.size == SYNC_CONTROL then Return(cfg, x, e, mem, -1, X_E_INVALID_TRANSFER_SIZE)
    else if fromPeer == SYNC_CONTROL then Return(cfg, x, e, mem, -1, X_E_SYNC_TRANSFER_MISMATCH)
    else if (if x.Tx? then fromPeer < c.size else fromPeer > c.size) then
      Return(cfg, x, e, mem, -1, X_E_SEND_TOO_BIG_FOR_RECEIVE_BUFFER)
    else Silent(e.(pc := if x.Tx? then GetDest else PutSeq2, dest := fromPeer))
  }

  /** One step of one core, with the writes it issues. `dest` keeps the size read from the peer
      on the receiving side, the destination address on the sending side. */
  function Act(cfg: Config, x: Side, e: End, mem: seq<Byte>): Move
    requires cfg.modulus > 0 && CanAct(cfg, x, e)
  {
    var c := CallOf(cfg, x, e);
    var buf := Buffer(cfg, x, c);
    match e.pc
    case Idle =>
      Silent(e.(newSeq := (e.sequence + 1) % cfg.modulus, pc := if c.Sync? then PutCtl else PutAddr,
                snaps := e.snaps + [Slice(mem, buf, Size(c))]))
    case PutAddr => Issue(e.(pc := PutCtl), WAddr(buf))
    case PutCtl => Issue(e.(pc := PutSeq), WCtl(Control(c)))
    case PutSeq => Issue(e.(pc := Await1), WSeq(e.newSeq))
    case Await1 => Silent(e.(pc := GetCtl))
    case GetCtl => Decide(cfg, x, e.(sequence := e.newSeq, comp := e.comp + 1), mem, e.ctlFromPeer)
    case GetDest => Silent(e.(dest := e.addrFromPeer, pc := GetAlign))
    case GetAlign => Silent(e.(plan := Plan(WordAligned(buf, e.addrFromPeer), buf, e.dest, Size(c)), pc := Copy))
    case Copy =>
      if e.plan == [] then Silent(e.(pc := PutSeq2))
      else
        var a := e.plan[0];
        Issue(e.(plan := e.plan[1..]), WData(e.dest + a.offset, Slice(mem, buf + a.offset, a.width)))
    case PutSeq2 =>
      var q := (e.newSeq + 1) % cfg.modulus;
      Issue(e.(newSeq := q, pc := Await2), WSeq(q))
    case Await2 =>
      Return(cfg, x, e.(sequence := e.newSeq, comp := e.comp + 1), mem, if x.Tx? then Size(c) else e.dest, 0)
  }

  /** The first write on its way takes effect. */
  function Land(e: End): End
    requires e.inbox != []
  {
    var w := e.inbox[0];
    var e' := e.(inbox := e.inbox[1..], arrived := After(e.arrived, w));
    match w
    case WAddr(a) => e'.(addrFromPeer := a)
    case WCtl(c) => e'.(ctlFromPeer := c)
    case WSeq(q) => e'.(seqFromPeer := q)
    case WData(_, _) => e'
  }

  function LandInMemory(mem: seq<Byte>, w: Write): seq<Byte> {
    if w.WData? then Poke(mem, w.at, w.bytes) else mem
  }

  // ----- the whole system

  datatype Step =
    | Core(x: Side)                         // one step of a core inside or starting a call
    | Arrive(x: Side)                       // a write of the peer takes effect at x
    | Store(x: Side, at: nat, b: Byte)      // the program on x uses the memory between calls
    | Misuse(x: Side)                       // a call that fails the mode test: returns -1 at once

  /** Is this address part of the buffer of the call that x is inside of? */
  predicate InUse(cfg: Config, x: Side, e: End, at: nat) {
    !e.pc.Idle? && e.next < |Calls(cfg, x)| &&
    var c := CallOf(cfg, x, e);
    Buffer(cfg, x, c) <= at < Buffer(cfg, x, c) + Size(c)
  }

  predicate Enabled(cfg: Config, s: State, st: Step) {
    match st
    case Core(x) => CanAct(cfg, x, At(s, x))
    case Arrive(x) => At(s, x).inbox != []
    case Store(x, at, _) => At(s, x).pc.Idle? && at < |s.mem| && !InUse(cfg, Peer(x), At(s, Peer(x)), at)
    case Misuse(x) => At(s, x).pc.Idle?
  }

  /** The core's own part changes at once; its writes join those on their way to the peer. */
  function Settle(s: State, x: Side, move: Move): State {
    var peer := At(s, Peer(x));
    With(With(s, x, move.me), Peer(x), peer.(inbox := peer.inbox + move.out))
  }

  function Next(cfg: Config, s: State, st: Step): State
    requires cfg.modulus > 0 && Enabled(cfg, s, st)
  {
    match st
    case Core(x) => Settle(s, x, Act(cfg, x, At(s, x), s.mem))
    case Arrive(x) =>
      var w := At(s, x).inbox[0];
      With(s, x, Land(At(s, x))).(mem := LandInMemory(s.mem, w))
    case Store(x, at, b) => s.(mem := s.mem[at := b])
    case Misuse(x) => s
  }

  /** A schedule that can be followed from `s`. */
  predicate Run(cfg: Config, s: State, steps: seq<Step>)
    requires cfg.modulus > 0
    decreases |steps|
  {
    steps == [] || (Enabled(cfg, s, steps[0]) && Run(cfg, Next(cfg, s, steps[0]), steps[1..]))
  }

  function Exec(cfg: Config, s: State, steps: seq<Step>): State
    requires cfg.modulus > 0 && Run(cfg, s, steps)
    decreases |steps|
  {
    if steps == [] then s else Exec(cfg, Next(cfg, s, steps[0]), steps[1..])
  }

  /** The test made by x_endpoint_ready. */
  predicate Ready(cfg: Config, e: End)
    requires cfg.modulus > 0
  {
    e.seqFromPeer == (e.sequence + 1) % cfg.modulus
  }

  predicate Waiting(e: End) {
    e.pc.Await1? || e.pc.Await2?
  }
}
