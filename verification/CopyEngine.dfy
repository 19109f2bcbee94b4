/** The copy loops of x_sync_send, on a memory that they update in place. */
module CopyEngine {
  import opened CopyPlan

  predicate OnBoundary(p: nat, width: nat) {
    width > 0 && p % width == 0
  }

  lemma NextBoundary(p: nat, width: nat)
    requires (width == 1 || width == 4 || width == 8) && OnBoundary(p, width)
    ensures OnBoundary(p + width, width)
  {
    if width == 8 { assert (p + 8) % 8 == p % 8; } else if width == 4 { assert (p + 4) % 4 == p % 4; }
  }

  /** One load and one store of a byte, word or doubleword. The hardware requires both addresses
      to be aligned to the width. */
  method Move(mem: array<Byte>, dst: nat, src: nat, width: nat)
    requires width == 1 || width == 4 || width == 8
    requires OnBoundary(src, width) && OnBoundary(dst, width)
    requires src + width <= mem.Length && dst + width <= mem.Length
    modifies mem
    ensures mem[..] == Poke(old(mem[..]), dst, Slice(old(mem[..]), src, width))
  {
    var value := mem[src..src + width];
    ghost var was := mem[..];
    forall i | 0 <= i < width { mem[dst + i] := value[i]; }
    assert mem[..] == was[..dst] + value + was[dst + width..];
  }

  /** A message: the memory before the copy, its place, its destination and its size. */
  datatype Job = Job(was: seq<Byte>, src: nat, dst: nat, size: nat)

  ghost predicate Valid(j: Job) {
    j.src + j.size <= |j.was| && j.dst + j.size <= |j.was| && Disjoint(j.src, j.size, j.dst, j.size)
  }

  /** The memory after the accesses of `trace`. */
  ghost predicate Performed(j: Job, trace: seq<Access>, now: seq<Byte>) {
    |now| == |j.was| && now == Perform(j.was, j.src, j.dst, trace)
  }

  /** The next access, which is added to the trace of those performed. */
  method MoveNext(mem: array<Byte>, destPtr: nat, srcPtr: nat, width: nat, ghost j: Job, ghost off: nat,
                  ghost trace: seq<Access>)
    returns (ghost trace': seq<Access>)
    requires width == 1 || width == 4 || width == 8
    requires Valid(j) && mem.Length == |j.was| && Performed(j, trace, mem[..])
    requires destPtr == j.dst + off && srcPtr == j.src + off && off + width <= j.size
    requires OnBoundary(srcPtr, width) && OnBoundary(destPtr, width)
    modifies mem
    ensures trace' == trace + [Access(off, width)]
    ensures Performed(j, trace', mem[..])
  {
    hide Perform, Poke, Slice;
    Move(mem, destPtr, srcPtr, width);
    PerformSnoc(j.was, j.src, j.dst, trace, Access(off, width));
    trace' := trace + [Access(off, width)];
  }

  /** Four accesses in a row, as the unrolled loops make them. */
  method MoveFour(mem: array<Byte>, destPtr: nat, srcPtr: nat, width: nat, ghost j: Job, ghost off: nat,
                  ghost trace: seq<Access>)
    returns (ghost trace': seq<Access>)
    requires width == 1 || width == 4 || width == 8
    requires Valid(j) && mem.Length == |j.was| && Performed(j, trace, mem[..])
    requires destPtr == j.dst + off && srcPtr == j.src + off && off + 4 * width <= j.size
    requires OnBoundary(srcPtr, width) && OnBoundary(destPtr, width)
    modifies mem
    ensures trace' == trace + [Access(off, width)] + [Access(off + width, width)] + [Access(off + 2 * width, width)]
            + [Access(off + 3 * width, width)]
    ensures Performed(j, trace', mem[..])
  {
    hide Performed, OnBoundary;
    trace' := MoveNext(mem, destPtr, srcPtr, width, j, off, trace);
    NextBoundary(srcPtr, width);
    NextBoundary(destPtr, width);
    trace' := MoveNext(mem, destPtr + width, srcPtr + width, width, j, off + width, trace');
    NextBoundary(srcPtr + width, width);
    NextBoundary(destPtr + width, width);
    trace' := MoveNext(mem, destPtr + 2 * width, srcPtr + 2 * width, width, j, off + 2 * width, trace');
    NextBoundary(srcPtr + 2 * width, width);
    NextBoundary(destPtr + 2 * width, width);
    trace' := MoveNext(mem, destPtr + 3 * width, srcPtr + 3 * width, width, j, off + 3 * width, trace');
  }

  // ----- one round of a loop, as an extension of the burst

  lemma NoBurst(trace: seq<Access>, off: nat, w: nat)
    ensures trace + Burst(off, w, 0) == trace
  {
  }

  lemma Round1(trace: seq<Access>, off: nat, w: nat, n: nat)
    ensures trace + Burst(off, w, n) + [Access(off + w * n, w)] == trace + Burst(off, w, n + 1)
  {
    BurstJoin(off, w, n, 1);
    assert Burst(off + w * n, w, 1) == [Access(off + w * n, w)];
  }

  lemma Round4(trace: seq<Access>, off: nat, w: nat, n: nat)
    ensures var at := off + w * n;
            trace + Burst(off, w, n) + [Access(at, w)] + [Access(at + w, w)] + [Access(at + 2 * w, w)]
              + [Access(at + 3 * w, w)]
            == trace + Burst(off, w, n + 4)
  {
    hide Burst;
    Round1(trace, off, w, n);
    Round1(trace, off, w, n + 1);
    Round1(trace, off, w, n + 2);
    Round1(trace, off, w, n + 3);
    assert w * (n + 1) == w * n + w && w * (n + 2) == w * n + 2 * w && w * (n + 3) == w * n + 3 * w;
  }

  lemma Round8(trace: seq<Access>, off: nat, w: nat, n: nat)
    ensures var at := off + w * n;
            trace + Burst(off, w, n) + [Access(at, w)] + [Access(at + w, w)] + [Access(at + 2 * w, w)]
              + [Access(at + 3 * w, w)]
            + [Access(at + 4 * w, w)] + [Access(at + 5 * w, w)] + [Access(at + 6 * w, w)] + [Access(at + 7 * w, w)]
            == trace + Burst(off, w, n + 8)
  {
    hide Burst;
    Round4(trace, off, w, n);
    Round4(trace, off, w, n + 4);
    assert w * (n + 4) == w * n + 4 * w;
  }

  /** Doublewords, four in each round. */
  method CopyDoubles(mem: array<Byte>, destPtr: nat, srcPtr: nat, afterEnd: nat, ghost j: Job, ghost off: nat,
                     ghost trace: seq<Access>)
    returns (destPtr': nat, srcPtr': nat, stores: nat, ghost trace': seq<Access>)
    requires Valid(j) && off <= j.size && mem.Length == |j.was| && Performed(j, trace, mem[..])
    requires destPtr == j.dst + off && srcPtr == j.src + off && afterEnd == j.dst + j.size
    requires srcPtr % 8 == 0 && destPtr % 8 == 0
    modifies mem
    ensures Performed(j, trace', mem[..])
    ensures stores == 4 * ((j.size - off) / 32) && trace' == trace + Burst(off, 8, stores)
    ensures destPtr' == destPtr + 8 * stores && srcPtr' == srcPtr + 8 * stores && off + 8 * stores <= j.size
    ensures srcPtr' % 8 == 0 && destPtr' % 8 == 0
  {
    hide Performed, Perform, Burst;
    destPtr', srcPtr', stores, trace' := destPtr, srcPtr, 0, trace;
    NoBurst(trace, off, 8);
    while afterEnd - destPtr' >= 32
      invariant destPtr' == destPtr + 8 * stores && srcPtr' == srcPtr + 8 * stores && off + 8 * stores <= j.size
      invariant srcPtr' % 8 == 0 && destPtr' % 8 == 0
      invariant stores % 4 == 0
      invariant trace' == trace + Burst(off, 8, stores)
      invariant Performed(j, trace', mem[..])
      decreases afterEnd - destPtr'
    {
      ghost var at := off + 8 * stores;
      Round4(trace, off, 8, stores);
      trace' := MoveFour(mem, destPtr', srcPtr', 8, j, at, trace');
      destPtr', srcPtr', stores := destPtr' + 32, srcPtr' + 32, stores + 4;
    }
  }

  /** Words, four in each round. */
  method CopyQuads(mem: array<Byte>, destPtr: nat, srcPtr: nat, afterEnd: nat, ghost j: Job, ghost off: nat,
                   ghost trace: seq<Access>)
    returns (destPtr': nat, srcPtr': nat, stores: nat, ghost trace': seq<Access>)
    requires Valid(j) && off <= j.size && mem.Length == |j.was| && Performed(j, trace, mem[..])
    requires destPtr == j.dst + off && srcPtr == j.src + off && afterEnd == j.dst + j.size
    requires srcPtr % 4 == 0 && destPtr % 4 == 0
    modifies mem
    ensures Performed(j, trace', mem[..])
    ensures stores == 4 * ((j.size - off) / 16) && trace' == trace + Burst(off, 4, stores)
    ensures destPtr' == destPtr + 4 * stores && srcPtr' == srcPtr + 4 * stores && off + 4 * stores <= j.size
    ensures srcPtr' % 4 == 0 && destPtr' % 4 == 0
  {
    hide Performed, Perform, Burst;
    destPtr', srcPtr', stores, trace' := destPtr, srcPtr, 0, trace;
    NoBurst(trace, off, 4);
    while afterEnd - destPtr' >= 16
      invariant destPtr' == destPtr + 4 * stores && srcPtr' == srcPtr + 4 * stores && off + 4 * stores <= j.size
      invariant srcPtr' % 4 == 0 && destPtr' % 4 == 0
      invariant stores % 4 == 0
      invariant trace' == trace + Burst(off, 4, stores)
      invariant Performed(j, trace', mem[..])
      decreases afterEnd - destPtr'
    {
      ghost var at := off + 4 * stores;
      Round4(trace, off, 4, stores);
      trace' := MoveFour(mem, destPtr', srcPtr', 4, j, at, trace');
      destPtr', srcPtr', stores := destPtr' + 16, srcPtr' + 16, stores + 4;
    }
  }

  /** Single words. */
  method CopyWords(mem: array<Byte>, destPtr: nat, srcPtr: nat, afterEnd: nat, ghost j: Job, ghost off: nat,
                   ghost trace: seq<Access>)
    returns (destPtr': nat, srcPtr': nat, stores: nat, ghost trace': seq<Access>)
    requires Valid(j) && off <= j.size && mem.Length == |j.was| && Performed(j, trace, mem[..])
    requires destPtr == j.dst + off && srcPtr == j.src + off && afterEnd == j.dst + j.size
    requires srcPtr % 4 == 0 && destPtr % 4 == 0
    modifies mem
    ensures Performed(j, trace', mem[..])
    ensures stores == (j.size - off) / 4 && trace' == trace + Burst(off, 4, stores)
    ensures destPtr' == destPtr + 4 * stores && srcPtr' == srcPtr + 4 * stores && off + 4 * stores <= j.size
    ensures srcPtr' % 4 == 0 && destPtr' % 4 == 0
  {
    hide Performed, Perform, Burst;
    destPtr', srcPtr', stores, trace' := destPtr, srcPtr, 0, trace;
    NoBurst(trace, off, 4);
    while afterEnd - destPtr' >= 4
      invariant destPtr' == destPtr + 4 * stores && srcPtr' == srcPtr + 4 * stores && off + 4 * stores <= j.size
      invariant srcPtr' % 4 == 0 && destPtr' % 4 == 0
      invariant trace' == trace + Burst(off, 4, stores)
      invariant Performed(j, trace', mem[..])
      decreases afterEnd - destPtr'
    {
      ghost var at := off + 4 * stores;
      Round1(trace, off, 4, stores);
      trace' := MoveNext(mem, destPtr', srcPtr', 4, j, at, trace');
      destPtr', srcPtr', stores := destPtr' + 4, srcPtr' + 4, stores + 1;
    }
  }

  /** Bytes, eight in each round. */
  method CopyOctets(mem: array<Byte>, destPtr: nat, srcPtr: nat, afterEnd: nat, ghost j: Job, ghost off: nat,
                    ghost trace: seq<Access>)
    returns (destPtr': nat, srcPtr': nat, stores: nat, ghost trace': seq<Access>)
    requires Valid(j) && off <= j.size && mem.Length == |j.was| && Performed(j, trace, mem[..])
    requires destPtr == j.dst + off && srcPtr == j.src + off && afterEnd == j.dst + j.size
    modifies mem
    ensures Performed(j, trace', mem[..])
    ensures stores == 8 * ((j.size - off) / 8) && trace' == trace + Burst(off, 1, stores)
    ensures destPtr' == destPtr + stores && srcPtr' == srcPtr + stores && off + stores <= j.size
  {
    hide Performed, Perform, Burst;
    destPtr', srcPtr', stores, trace' := destPtr, srcPtr, 0, trace;
    NoBurst(trace, off, 1);
    while afterEnd - destPtr' >= 8
      invariant destPtr' == destPtr + stores && srcPtr' == srcPtr + stores && off + stores <= j.size
      invariant stores % 8 == 0
      invariant trace' == trace + Burst(off, 1, stores)
      invariant Performed(j, trace', mem[..])
      decreases afterEnd - destPtr'
    {
      ghost var at := off + stores;
      Round8(trace, off, 1, stores);
      trace' := MoveFour(mem, destPtr', srcPtr', 1, j, at, trace');
      destPtr', srcPtr' := destPtr' + 4, srcPtr' + 4;
      trace' := MoveFour(mem, destPtr', srcPtr', 1, j, at + 4, trace');
      destPtr', srcPtr' := destPtr' + 4, srcPtr' + 4;
      stores := stores + 8;
    }
  }

  /** Single bytes. */
  method CopyBytes(mem: array<Byte>, destPtr: nat, srcPtr: nat, afterEnd: nat, ghost j: Job, ghost off: nat,
                   ghost trace: seq<Access>)
    returns (destPtr': nat, srcPtr': nat, stores: nat, ghost trace': seq<Access>)
    requires Valid(j) && off <= j.size && mem.Length == |j.was| && Performed(j, trace, mem[..])
    requires destPtr == j.dst + off && srcPtr == j.src + off && afterEnd == j.dst + j.size
    modifies mem
    ensures Performed(j, trace', mem[..])
    ensures stores == j.size - off && trace' == trace + Burst(off, 1, stores)
    ensures destPtr' == destPtr + stores && srcPtr' == srcPtr + stores && off + stores <= j.size
  {
    hide Performed, Perform, Burst;
    destPtr', srcPtr', stores, trace' := destPtr, srcPtr, 0, trace;
    NoBurst(trace, off, 1);
    while afterEnd - destPtr' >= 1
      invariant destPtr' == destPtr + stores && srcPtr' == srcPtr + stores && off + stores <= j.size
      invariant trace' == trace + Burst(off, 1, stores)
      invariant Performed(j, trace', mem[..])
      decreases afterEnd - destPtr'
    {
      ghost var at := off + stores;
      Round1(trace, off, 1, stores);
      trace' := MoveNext(mem, destPtr', srcPtr', 1, j, at, trace');
      destPtr', srcPtr' := destPtr' + 1, srcPtr' + 1;
      stores := stores + 1;
    }
  }

  /** Words, and then what is left. */
  method CopyTail(mem: array<Byte>, destPtr: nat, srcPtr: nat, afterEnd: nat, ghost j: Job, ghost off: nat,
                  ghost trace: seq<Access>)
    returns (stores: nat, ghost trace': seq<Access>)
    requires Valid(j) && off <= j.size && mem.Length == |j.was| && Performed(j, trace, mem[..])
    requires destPtr == j.dst + off && srcPtr == j.src + off && afterEnd == j.dst + j.size
    requires srcPtr % 4 == 0 && destPtr % 4 == 0
    modifies mem
    ensures Performed(j, trace', mem[..])
    ensures trace' == trace + WordsFrom(off, j.size) && stores == |WordsFrom(off, j.size)|
  {
    hide Performed, Perform, Burst;
    var n, m: nat;
    var d, s := destPtr, srcPtr;
    ghost var quads := QuadsEnd(off, j.size);
    ghost var words := WordsEnd(quads, j.size);
    d, s, stores, trace' := CopyQuads(mem, d, s, afterEnd, j, off, trace);
    BurstLength(off, 4, stores);
    d, s, n, trace' := CopyWords(mem, d, s, afterEnd, j, quads, trace');
    BurstLength(quads, 4, n);
    d, s, m, trace' := CopyBytes(mem, d, s, afterEnd, j, words, trace');
    BurstLength(words, 1, m);
    stores := stores + n + m;
    Regroup(trace, Burst(off, 4, 4 * ((j.size - off) / 16)), Burst(quads, 4, n), Burst(words, 1, m));
  }

  lemma Regroup(t: seq<Access>, a: seq<Access>, b: seq<Access>, c: seq<Access>)
    ensures t + a + b + c == t + (a + (b + c))
  {
  }

  lemma NothingPerformed(j: Job)
    ensures Performed(j, [], j.was)
  {
  }

  lemma LeadAligns(src: nat, dst: nat, size: nat)
    requires WordAligned(src, dst) && Paced(src, dst, size)
    ensures Lead(src, dst, size) == if (dst / 4) % 2 == 1 then 4 else 0
    ensures (src + Lead(src, dst, size)) % 8 == 0 && (dst + Lead(src, dst, size)) % 8 == 0
  {
  }

  lemma DoublesFrom(src: nat, dst: nat, size: nat)
    requires Paced(src, dst, size)
    ensures var lead := Lead(src, dst, size);
            && lead + 4 <= size
            && DoublesPlan(src, dst, size) == Burst(lead, 8, 4 * ((size - lead) / 32))
            && DoublesEnd(src, dst, size) == lead + 8 * (4 * ((size - lead) / 32))
  {
    hide Burst;
  }

  /** A leading word if the buffers are not on doubleword boundaries. */
  method CopyLead(mem: array<Byte>, buf: nat, address: nat, size: nat, ghost j: Job)
    returns (destPtr: nat, srcPtr: nat, stores: nat, ghost trace: seq<Access>)
    requires j == Job(mem[..], buf, address, size) && Valid(j) && WordAligned(buf, address) && Paced(buf, address, size)
    modifies mem
    ensures Performed(j, trace, mem[..])
    ensures trace == LeadPlan(buf, address, size) && stores == |trace|
    ensures destPtr == address + Lead(buf, address, size) && srcPtr == buf + Lead(buf, address, size)
  {
    hide Performed, Perform;
    destPtr, srcPtr, stores, trace := address, buf, 0, [];
    NothingPerformed(j);
    if (destPtr / 4) % 2 == 1 {
      trace := MoveNext(mem, destPtr, srcPtr, 4, j, 0, trace);
      srcPtr, destPtr, stores := srcPtr + 4, destPtr + 4, 1;
    }
  }

  /** A leading word, and doublewords. */
  method CopyHead(mem: array<Byte>, buf: nat, address: nat, size: nat, ghost j: Job)
    returns (destPtr: nat, srcPtr: nat, stores: nat, ghost trace: seq<Access>)
    requires j == Job(mem[..], buf, address, size) && Valid(j) && WordAligned(buf, address) && Paced(buf, address, size)
    modifies mem
    ensures Performed(j, trace, mem[..])
    ensures trace == LeadPlan(buf, address, size) + DoublesPlan(buf, address, size) && stores == |trace|
    ensures destPtr == address + DoublesEnd(buf, address, size) && srcPtr == buf + DoublesEnd(buf, address, size)
  {
    hide Performed, Perform, Burst, Lead, LeadPlan, DoublesPlan, DoublesEnd;
    var n: nat;
    ghost var off := Lead(buf, address, size);
    LeadAligns(buf, address, size);
    DoublesFrom(buf, address, size);
    destPtr, srcPtr, stores, trace := CopyLead(mem, buf, address, size, j);
    destPtr, srcPtr, n, trace := CopyDoubles(mem, destPtr, srcPtr, address + size, j, off, trace);
    BurstLength(off, 8, n);
    stores := stores + n;
  }

  /** The word-aligned half of the engine. */
  method CopyAligned(mem: array<Byte>, buf: nat, address: nat, size: nat, ghost j: Job)
    returns (stores: nat, ghost trace: seq<Access>)
    requires j == Job(mem[..], buf, address, size) && Valid(j) && WordAligned(buf, address)
    modifies mem
    ensures Performed(j, trace, mem[..])
    ensures stores == |trace| && trace == Plan(true, buf, address, size)
  {
    hide Performed, Perform, Burst, WordsFrom, DoublesPlan, LeadPlan;
    var destPtr, srcPtr := address, buf;
    stores, trace := 0, [];
    NothingPerformed(j);
    NoHead(buf, address, size);
    if size >= 32 && (srcPtr / 4) % 2 == (destPtr / 4) % 2 {
      destPtr, srcPtr, stores, trace := CopyHead(mem, buf, address, size, j);
    }
    HeadEnds(buf, address, size);
    var n: nat;
    n, trace := CopyTail(mem, destPtr, srcPtr, address + size, j, DoublesEnd(buf, address, size), trace);
    stores := stores + n;
    Regroup([], LeadPlan(buf, address, size), DoublesPlan(buf, address, size),
      WordsFrom(DoublesEnd(buf, address, size), size));
  }

  lemma NoHead(buf: nat, address: nat, size: nat)
    ensures !Paced(buf, address, size) ==>
              LeadPlan(buf, address, size) == DoublesPlan(buf, address, size) == []
                && DoublesEnd(buf, address, size) == 0
  {
  }

  lemma HeadEnds(buf: nat, address: nat, size: nat)
    requires WordAligned(buf, address)
    ensures DoublesEnd(buf, address, size) <= size
    ensures (buf + DoublesEnd(buf, address, size)) % 4 == 0 && (address + DoublesEnd(buf, address, size)) % 4 == 0
  {
    DoublesFacts(buf, address, size);
  }

  /** The other half. */
  method CopyUnaligned(mem: array<Byte>, buf: nat, address: nat, size: nat, ghost j: Job)
    returns (stores: nat, ghost trace: seq<Access>)
    requires j == Job(mem[..], buf, address, size) && Valid(j)
    modifies mem
    ensures Performed(j, trace, mem[..])
    ensures stores == |trace| && trace == Plan(false, buf, address, size)
  {
    hide Performed, Perform, Burst;
    NothingPerformed(j);
    var n: nat;
    var destPtr, srcPtr: nat;
    destPtr, srcPtr, stores, trace := CopyOctets(mem, address, buf, address + size, j, 0, []);
    BurstLength(0, 1, stores);
    destPtr, srcPtr, n, trace := CopyBytes(mem, destPtr, srcPtr, address + size, j, OctetsEnd(size), trace);
    BurstLength(OctetsEnd(size), 1, n);
    stores := stores + n;
  }

  /** The engine as a whole: afterwards the destination holds the bytes of the source and nothing
      else has changed; the accesses made are those of the plan, in that order, each under Move's
      alignment requirement; and every loop ends. */
  method CopyMessage(mem: array<Byte>, buf: nat, address: nat, size: nat)
    returns (stores: nat, ghost trace: seq<Access>)
    requires buf + size <= mem.Length && address + size <= mem.Length && Disjoint(buf, size, address, size)
    modifies mem
    ensures mem[..] == old(mem[..address] + mem[buf..buf + size] + mem[address + size..])
    ensures trace == Plan(WordAligned(buf, address), buf, address, size) && stores == |trace|
    ensures WordAligned(buf, address) && Paced(buf, address, size) ==> stores <= 4 * (size / 32) + 11
  {
    hide Performed, Perform, Plan;
    ghost var j := Job(mem[..], buf, address, size);
    if buf % 4 == 0 && address % 4 == 0 {
      stores, trace := CopyAligned(mem, buf, address, size, j);
      PlanLength(buf, address, size);
    } else {
      stores, trace := CopyUnaligned(mem, buf, address, size, j);
    }
    PlanMeaning(j, WordAligned(buf, address), mem[..]);
  }

  lemma PlanMeaning(j: Job, wordAligned: bool, now: seq<Byte>)
    requires Valid(j) && (wordAligned ==> WordAligned(j.src, j.dst))
    requires Performed(j, Plan(wordAligned, j.src, j.dst, j.size), now)
    ensures now == j.was[..j.dst] + j.was[j.src..j.src + j.size] + j.was[j.dst + j.size..]
  {
    hide Perform, Plan;
    PlanIsByteCopy(j.was, wordAligned, j.src, j.dst, j.size);
  }
}
