/** An endpoint and the three calls made on it, as the program runs them on one core: reads of the
    endpoint's own words, writes to the peer, and loops that wait for the peer. What the peer does in
    the meantime is given beforehand, as the writes it issues and how many of them take effect before
    each statement. Every step of these methods is a step of the machine's part for that core. */
module Endpoints {
  import opened CopyPlan
  import H = Handshake
  import S = Startup
  import K = HandshakeSkew

  const X_E_ENDPOINT_MODE_MISMATCH := -30001

  // ----- one core's part of the step machine

  datatype Local = Local(e: H.End, mem: seq<Byte>, sent: seq<H.Write>)

  predicate Acts(cfg: H.Config, x: H.Side, a: Local, b: Local)
    requires cfg.modulus > 0
  {
    H.CanAct(cfg, x, a.e) &&
    var move := H.Act(cfg, x, a.e, a.mem);
    b == Local(move.me, a.mem, a.sent + move.out)
  }

  predicate Takes(a: Local, b: Local) {
    a.e.inbox != [] && b == Local(H.Land(a.e), H.LandInMemory(a.mem, a.e.inbox[0]), a.sent)
  }

  predicate Behaviour(cfg: H.Config, x: H.Side, trace: seq<Local>)
    requires cfg.modulus > 0
  {
    trace != [] && forall i :: 0 <= i < |trace| - 1 ==>
      Acts(cfg, x, trace[i], trace[i + 1]) || Takes(trace[i], trace[i + 1])
  }

  lemma BehaviourSnoc(cfg: H.Config, x: H.Side, trace: seq<Local>, b: Local)
    requires cfg.modulus > 0 && Behaviour(cfg, x, trace)
    requires Acts(cfg, x, trace[|trace| - 1], b) || Takes(trace[|trace| - 1], b)
    ensures Behaviour(cfg, x, trace + [b])
  {
    hide Acts, Takes;
  }

  /** The same call, at another point of it or with more of the peer's writes in effect. */
  predicate OnlyArrivals(a: H.End, b: H.End) {
    b == a.(seqFromPeer := b.seqFromPeer, ctlFromPeer := b.ctlFromPeer, addrFromPeer := b.addrFromPeer,
      inbox := b.inbox, arrived := b.arrived)
  }

  class Endpoint {
    const cfg: H.Config
    const side: H.Side
    const mode: S.Mode
    var sequenceFromPeer: nat
    var controlFromPeer: nat
    var addressFromPeer: nat
    var sequence: nat
    // the peer and the memory
    var inbox: seq<H.Write>
    var arrivals: seq<nat>
    var memory: seq<Byte>
    var sent: seq<H.Write>
    // the state of the step machine that this is, and how it came about
    ghost var end: H.End
    ghost var trace: seq<Local>

    ghost predicate Valid()
      reads this
    {
      && cfg.modulus > 0
      && (mode.Sending? ==> side.Tx?) && (mode.Receiving? ==> side.Rx?)
      && end.seqFromPeer == sequenceFromPeer && end.ctlFromPeer == controlFromPeer
      && end.addrFromPeer == addressFromPeer
      && end.sequence == sequence && end.inbox == inbox
      && Behaviour(cfg, side, trace) && trace[|trace| - 1] == Local(end, memory, sent)
    }

    /** An endpoint fresh from start-up. */
    constructor (cfg: H.Config, mode: S.Mode, inbox: seq<H.Write>, arrivals: seq<nat>, memory: seq<Byte>)
      requires cfg.modulus > 0
      ensures Valid() && end == H.FRESH_END.(inbox := inbox) && this.cfg == cfg && this.mode == mode
      ensures this.side == (if mode.Sending? then H.Tx else H.Rx) && trace == [Local(end, memory, [])]
    {
      this.cfg, this.mode, this.side := cfg, mode, if mode.Sending? then H.Tx else H.Rx;
      sequenceFromPeer, controlFromPeer, addressFromPeer, sequence := 0, 0, 0, 0;
      this.inbox, this.arrivals, this.memory, sent := inbox, arrivals, memory, [];
      end := H.FRESH_END.(inbox := inbox);
      trace := [Local(H.FRESH_END.(inbox := inbox), memory, [])];
    }

    /** The first of the peer's writes takes effect. */
    method DeliverOne()
      requires Valid() && inbox != []
      modifies `sequenceFromPeer, `controlFromPeer, `addressFromPeer, `inbox, `memory, `end, `trace
      ensures Valid() && old(trace) <= trace && OnlyArrivals(old(end), end) && |inbox| == old(|inbox|) - 1
    {
      hide Behaviour, Acts, Poke;
      var w := inbox[0];
      inbox := inbox[1..];
      match w {
        case WAddr(a) => addressFromPeer := a;
        case WCtl(c) => controlFromPeer := c;
        case WSeq(q) => sequenceFromPeer := q;
        case WData(at, bytes) => memory := Poke(memory, at, bytes);
      }
      end := H.Land(end);
      BehaviourSnoc(cfg, side, trace, Local(end, memory, sent));
      trace := trace + [Local(end, memory, sent)];
    }

    /** Some of the peer's writes take effect. */
    method Deliver()
      requires Valid()
      modifies `sequenceFromPeer, `controlFromPeer, `addressFromPeer, `inbox, `arrivals, `memory, `end, `trace
      ensures Valid() && old(trace) <= trace && OnlyArrivals(old(end), end) && |inbox| <= old(|inbox|)
      ensures |arrivals| == if old(arrivals) == [] then 0 else old(|arrivals|) - 1
    {
      hide Behaviour;
      var n := 0;
      if arrivals != [] {
        n, arrivals := arrivals[0], arrivals[1..];
      }
      while n > 0 && inbox != []
        invariant Valid() && old(trace) <= trace && OnlyArrivals(old(end), end) && |inbox| <= old(|inbox|)
        invariant |arrivals| == if old(arrivals) == [] then 0 else old(|arrivals|) - 1
        decreases n
      {
        DeliverOne();
        n := n - 1;
      }
    }

    /** The core moves on without touching a shared word. */
    ghost method Compute()
      requires Valid() && H.CanAct(cfg, side, end)
      requires H.Act(cfg, side, end, memory).out == [] && H.Act(cfg, side, end, memory).me.sequence == sequence
      modifies `end, `trace
      ensures Valid() && old(trace) <= trace && end == H.Act(cfg, side, old(end), memory).me
    {
      hide H.Act, Behaviour;
      ActKeepsRecord(cfg, side, end, memory);
      end := H.Act(cfg, side, end, memory).me;
      assert sent + [] == sent;
      BehaviourSnoc(cfg, side, trace, Local(end, memory, sent));
      trace := trace + [Local(end, memory, sent)];
    }

    /** A write to the peer. */
    method Write(w: H.Write)
      requires Valid() && H.CanAct(cfg, side, end)
      requires H.Act(cfg, side, end, memory).out == [w] && H.Act(cfg, side, end, memory).me.sequence == sequence
      modifies `sent, `end, `trace
      ensures Valid() && old(trace) <= trace && end == H.Act(cfg, side, old(end), memory).me && sent == old(sent) + [w]
    {
      hide H.Act, Behaviour;
      ActKeepsRecord(cfg, side, end, memory);
      sent := sent + [w];
      end := H.Act(cfg, side, end, memory).me;
      BehaviourSnoc(cfg, side, trace, Local(end, memory, sent));
      trace := trace + [Local(end, memory, sent)];
    }

    /** The phase is complete. */
    method Complete(q: nat)
      requires Valid() && H.CanAct(cfg, side, end)
      requires H.Act(cfg, side, end, memory).out == [] && H.Act(cfg, side, end, memory).me.sequence == q
      modifies `sequence, `end, `trace
      ensures Valid() && old(trace) <= trace && end == H.Act(cfg, side, old(end), memory).me && sequence == q
    {
      hide H.Act, Behaviour;
      ActKeepsRecord(cfg, side, end, memory);
      sequence := q;
      end := H.Act(cfg, side, end, memory).me;
      assert sent + [] == sent;
      BehaviourSnoc(cfg, side, trace, Local(end, memory, sent));
      trace := trace + [Local(end, memory, sent)];
    }

    /** The wait loop. When the deliveries planned are used up, the writes that are left arrive one by
        one. With nothing left to arrive the program would spin for ever; the model then stops. */
    method Await(q: nat) returns (met: bool)
      requires Valid() && H.Waiting(end) && end.newSeq == q && end.next < |H.Calls(cfg, side)|
      modifies `sequenceFromPeer, `controlFromPeer, `addressFromPeer, `inbox, `arrivals, `memory, `end, `trace
      ensures Valid() && old(trace) <= trace && OnlyArrivals(old(end), end)
      ensures met <==> sequenceFromPeer == q
      ensures !met ==> inbox == []
    {
      hide Behaviour;
      Deliver();
      while sequenceFromPeer != q && (arrivals != [] || inbox != [])
        invariant Valid() && old(trace) <= trace && OnlyArrivals(old(end), end)
        decreases |arrivals|, |inbox|
      {
        if arrivals != [] {
          Deliver();
        } else {
          DeliverOne();
        }
      }
      met := sequenceFromPeer == q;
    }

    ghost predicate AtCall(c: H.Call)
      reads this
    {
      Valid() && end.next < |H.Calls(cfg, side)| && H.Calls(cfg, side)[end.next] == c
    }

    /** The call has returned: the machine has recorded the same result and error. */
    ghost predicate Returned(before: H.End, result: int, error: int)
      reads this
    {
      && Valid() && end.pc.Idle? && end.next == before.next + 1 && |end.log| == |before.log| + 1
      && end.log[|before.log|].ret == result && end.log[|before.log|].error == error
    }

    /** The call is stuck in a wait loop, and nothing is left to arrive that could end it. */
    ghost predicate Blocked(before: H.End)
      reads this
    {
      Valid() && inbox == [] && H.Waiting(end) && sequenceFromPeer != end.newSeq && end.next == before.next
    }

    /** Inside the same call as `before`, at `pc`; only what is listed can have changed since. */
    ghost predicate Inside(before: H.End, c: H.Call, pc: H.Pc, q: nat)
      reads this
    {
      AtCall(c) && end.pc == pc && end.newSeq == q && end.next == before.next && end.log == before.log
    }

    /** Control word and sequence number go to the peer. */
    method Announce(c: H.Call, q: nat)
      requires AtCall(c) && end.pc.PutCtl? && end.newSeq == q
      modifies this
      ensures old(trace) <= trace && Inside(old(end), c, H.Await1, q)
    {
      hide Behaviour;
      Deliver();
      Write(H.WCtl(H.Control(c)));
      Deliver();
      Write(H.WSeq(q));
    }

    /** The address of the buffer goes to the peer, in its global form. */
    method AnnounceBuffer(buf: nat, size: nat, q: nat)
      requires AtCall(H.Transfer(buf, size)) && end.pc.PutAddr? && end.newSeq == q
      modifies this
      ensures old(trace) <= trace && Inside(old(end), H.Transfer(buf, size), H.PutCtl, q)
    {
      hide Behaviour;
      var bits := if side.Tx? then cfg.txBits else cfg.rxBits;
      Deliver();
      if buf / 0x10_0000 == 0 {
        Write(H.WAddr(buf + bits));
      } else {
        Write(H.WAddr(buf));
      }
    }

    /** The wait for the peer's first sequence number, and the control word that came with it. */
    method Meet(c: H.Call, q: nat) returns (met: bool, control: nat)
      requires AtCall(c) && end.pc.Await1? && end.newSeq == q
      modifies this
      ensures old(trace) <= trace
      ensures !met ==> Blocked(old(end))
      ensures met ==> Inside(old(end), c, H.GetCtl, q) && control == end.ctlFromPeer
    {
      hide Behaviour;
      control := 0;
      met := Await(q);
      if met {
        Compute();
        Deliver();
        control := controlFromPeer;
      }
    }

    method Sync() returns (finished: bool, result: int, error: int)
      requires AtCall(H.Sync) && end.pc.Idle?
      modifies this
      ensures old(trace) <= trace
      ensures if finished then Returned(old(end), result, error) else Blocked(old(end))
    {
      hide Behaviour;
      result, error := H.X_SUCCESS, 0;
      var newSequence := (sequence + 1) % cfg.modulus;
      Compute();
      Announce(H.Sync, newSequence);
      var control;
      finished, control := Meet(H.Sync, newSequence);
      if finished {
        Complete(newSequence);
        if control != H.SYNC_CONTROL {
          result, error := H.X_ERROR, H.X_E_SYNC_TRANSFER_MISMATCH;
        }
      }
    }

    /** The second phase. */
    method Confirm(c: H.Call, q: nat) returns (met: bool)
      requires AtCall(c) && end.pc.PutSeq2? && (end.newSeq + 1) % cfg.modulus == q
      modifies this
      ensures old(trace) <= trace
      ensures if met then Returned(old(end), if side.Tx? then H.Size(c) else old(end.dest), 0) else Blocked(old(end))
    {
      hide Behaviour;
      Deliver();
      Write(H.WSeq(q));
      met := Await(q);
      if met {
        Complete(q);
      }
    }

    /** The message goes to the peer, access by access in the order of the copy loops. */
    method CopyOut(buf: nat, size: nat)
      requires AtCall(H.Transfer(buf, size)) && side.Tx? && end.pc.GetDest?
      modifies this
      ensures old(trace) <= trace && Inside(old(end), H.Transfer(buf, size), H.PutSeq2, old(end.newSeq))
    {
      hide Behaviour, Plan, Slice, Poke, WordAligned;
      var c := H.Transfer(buf, size);
      var source := H.Buffer(cfg, side, c);
      Deliver();
      var dest := addressFromPeer;
      Compute();
      Deliver();
      var plan := Plan(WordAligned(source, addressFromPeer), source, dest, size);
      Compute();
      CopyLoops(c, source, dest, plan);
    }

    method CopyLoops(c: H.Call, source: nat, dest: nat, accesses: seq<Access>)
      requires AtCall(c) && end.pc.Copy? && end.plan == accesses && end.dest == dest && source == H.Buffer(cfg, side, c)
      modifies this
      ensures old(trace) <= trace && Inside(old(end), c, H.PutSeq2, old(end.newSeq))
    {
      hide Behaviour, Slice, Poke;
      var plan := accesses;
      while plan != []
        invariant Inside(old(end), c, H.Copy, old(end.newSeq)) && end.plan == plan && end.dest == dest
        invariant old(trace) <= trace
        decreases |plan|
      {
        Deliver();
        Write(H.WData(dest + plan[0].offset, Slice(memory, source + plan[0].offset, plan[0].width)));
        plan := plan[1..];
      }
      Compute();
    }

    /** The first phase of a transfer. */
    method Exchange(buf: nat, size: nat, q: nat) returns (met: bool, sizeFromPeer: nat)
      requires AtCall(H.Transfer(buf, size)) && end.pc.Idle? && q == (sequence + 1) % cfg.modulus
      modifies this
      ensures old(trace) <= trace
      ensures !met ==> Blocked(old(end))
      ensures met ==> Inside(old(end), H.Transfer(buf, size), H.GetCtl, q) && sizeFromPeer == end.ctlFromPeer
    {
      hide Behaviour, Slice;
      Compute();
      AnnounceBuffer(buf, size, q);
      Announce(H.Transfer(buf, size), q);
      met, sizeFromPeer := Meet(H.Transfer(buf, size), q);
    }

    /** A send; a call on an endpoint that is not a sending one changes nothing. */
    method SyncSend(buf: nat, size: nat) returns (finished: bool, result: int, error: int)
      requires Valid() && end.pc.Idle? && (mode.Sending? ==> AtCall(H.Transfer(buf, size)))
      modifies this
      ensures old(trace) <= trace
      ensures mode.Sending? ==> if finished then Returned(old(end), result, error) else Blocked(old(end))
      ensures !mode.Sending? ==>
              finished && result == -1 && error == X_E_ENDPOINT_MODE_MISMATCH && end == old(end) && trace == old(trace)
    {
      hide Behaviour, Slice;
      finished, result, error := true, -1, 0;
      var c := H.Transfer(buf, size);
      var newSequence := (sequence + 1) % cfg.modulus;
      if !mode.Sending? {
        error := X_E_ENDPOINT_MODE_MISMATCH;
      } else {
        var sizeFromPeer;
        finished, sizeFromPeer := Exchange(buf, size, newSequence);
        if finished {
          Complete(newSequence);
          if size == H.SYNC_CONTROL {
            error := H.X_E_INVALID_TRANSFER_SIZE;
          } else if sizeFromPeer == H.SYNC_CONTROL {
            error := H.X_E_SYNC_TRANSFER_MISMATCH;
          } else if sizeFromPeer < size {
            error := H.X_E_SEND_TOO_BIG_FOR_RECEIVE_BUFFER;
          } else {
            CopyOut(buf, size);
            newSequence := (newSequence + 1) % cfg.modulus;
            finished := Confirm(c, newSequence);
            if finished {
              result := size;
            }
          }
        }
      }
    }

    /** A receive; a call on an endpoint that is not a receiving one changes nothing. */
    method SyncReceive(buf: nat, size: nat) returns (finished: bool, result: int, error: int)
      requires Valid() && end.pc.Idle? && (mode.Receiving? ==> AtCall(H.Transfer(buf, size)))
      modifies this
      ensures old(trace) <= trace
      ensures mode.Receiving? ==> if finished then Returned(old(end), result, error) else Blocked(old(end))
      ensures !mode.Receiving? ==>
              finished && result == -1 && error == X_E_ENDPOINT_MODE_MISMATCH && end == old(end) && trace == old(trace)
    {
      hide Behaviour, Slice;
      finished, result, error := true, -1, 0;
      var c := H.Transfer(buf, size);
      var newSequence := (sequence + 1) % cfg.modulus;
      if !mode.Receiving? {
        error := X_E_ENDPOINT_MODE_MISMATCH;
      } else {
        var sizeFromPeer;
        finished, sizeFromPeer := Exchange(buf, size, newSequence);
        if finished {
          Complete(newSequence);
          if size == H.SYNC_CONTROL {
            error := H.X_E_INVALID_TRANSFER_SIZE;
          } else if sizeFromPeer == H.SYNC_CONTROL {
            error := H.X_E_SYNC_TRANSFER_MISMATCH;
          } else if sizeFromPeer > size {
            error := H.X_E_SEND_TOO_BIG_FOR_RECEIVE_BUFFER;
          } else {
            newSequence := (newSequence + 1) % cfg.modulus;
            finished := Confirm(c, newSequence);
            if finished {
              result := sizeFromPeer;
            }
          }
        }
      }
    }

    /** Would a call started now find its peer already waiting? Between calls, and given the skew
        invariant, the wrapped comparison says whether a phase of the peer that this end has not
        completed has taken effect. */
    method IsReady() returns (ready: bool)
      requires Valid()
      ensures ready <==> H.Ready(cfg, end)
      ensures forall issued: nat ::
                cfg.modulus >= 2 && end.pc.Idle? && end.arrived.n <= end.comp + 1
                  && K.SkewEnd(cfg, side, end, issued) ==>
                  (ready <==> end.arrived.n == end.comp + 1)
    {
      ready := sequenceFromPeer == (sequence + 1) % cfg.modulus;
      forall issued: nat
        | cfg.modulus >= 2 && end.pc.Idle? && end.arrived.n <= end.comp + 1 && K.SkewEnd(cfg, side, end, issued)
        ensures H.Ready(cfg, end) <==> end.arrived.n == end.comp + 1
      {
        K.IdleDecides(cfg, side, end, issued);
      }
    }
  }

  lemma ActKeepsRecord(cfg: H.Config, x: H.Side, e: H.End, mem: seq<Byte>)
    requires cfg.modulus > 0 && H.CanAct(cfg, x, e)
    ensures var me := H.Act(cfg, x, e, mem).me;
            && me.seqFromPeer == e.seqFromPeer && me.ctlFromPeer == e.ctlFromPeer && me.addrFromPeer == e.addrFromPeer
            && me.inbox == e.inbox
  {
  }
}
