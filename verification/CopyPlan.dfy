/** The copy performed by the sending side of a transfer: which loads and stores it makes,
    in which order and of which width, and what they amount to. */
module CopyPlan {

  type Byte = bv8

  /** One load from `source + offset` stored to `destination + offset`. */
  datatype Access = Access(offset: nat, width: nat)

  /** `n` bytes from `at`, or nothing when they are not all inside the memory. */
  function Slice(mem: seq<Byte>, at: nat, n: nat): seq<Byte> {
    if at + n <= |mem| then mem[at..at + n] else []
  }

  /** The memory with `bytes` stored at `at`; a store that does not fit has no effect. */
  function Poke(mem: seq<Byte>, at: nat, bytes: seq<Byte>): (r: seq<Byte>)
    ensures |r| == |mem|
  {
    if at + |bytes| <= |mem| then mem[..at] + bytes + mem[at + |bytes|..] else mem
  }

  predicate Disjoint(a: nat, n: nat, b: nat, k: nat) {
    n == 0 || k == 0 || a + n <= b || b + k <= a
  }

  /** `count` accesses of one width, back to back: the body of an unrolled loop. */
  function Burst(off: nat, width: nat, count: nat): seq<Access>
    decreases count
  {
    if count == 0 then [] else [Access(off, width)] + Burst(off + width, width, count - 1)
  }

  /** Both buffers have the same position within a doubleword, and there is enough to gain. */
  predicate Paced(src: nat, dst: nat, size: nat) {
    size >= 32 && (src / 4) % 2 == (dst / 4) % 2
  }

  /** Bytes moved by the single word that brings the destination to a doubleword boundary. */
  function Lead(src: nat, dst: nat, size: nat): nat {
    if Paced(src, dst, size) && (dst / 4) % 2 == 1 then 4 else 0
  }

  function LeadPlan(src: nat, dst: nat, size: nat): seq<Access> {
    if Lead(src, dst, size) == 4 then [Access(0, 4)] else []
  }

  /** Doublewords, four in each round, while 32 bytes are left. */
  function DoublesPlan(src: nat, dst: nat, size: nat): seq<Access> {
    var lead := Lead(src, dst, size);
    if Paced(src, dst, size) then Burst(lead, 8, 4 * ((size - lead) / 32)) else []
  }

  function DoublesEnd(src: nat, dst: nat, size: nat): nat {
    var lead := Lead(src, dst, size);
    if Paced(src, dst, size) then lead + 32 * ((size - lead) / 32) else 0
  }

  function QuadsEnd(off: nat, size: nat): nat
    requires off <= size
  {
    off + 16 * ((size - off) / 16)
  }

  function WordsEnd(off: nat, size: nat): nat
    requires off <= size
  {
    off + 4 * ((size - off) / 4)
  }

  /** Words, four in each round; then single words; then bytes. */
  function WordsFrom(off: nat, size: nat): seq<Access>
    requires off <= size
  {
    var quads := QuadsEnd(off, size);
    var words := WordsEnd(quads, size);
    Burst(off, 4, 4 * ((size - off) / 16)) + (Burst(quads, 4, (size - quads) / 4) + Burst(words, 1, size - words))
  }

  function OctetsEnd(size: nat): nat {
    8 * (size / 8)
  }

  /** Bytes, eight in each round; then single bytes. */
  function BytesPlan(size: nat): seq<Access> {
    Burst(0, 1, 8 * (size / 8)) + Burst(OctetsEnd(size), 1, size - OctetsEnd(size))
  }

  /** The accesses of one transfer. `wordAligned` is the outcome of the test on the low two
      address bits, which the sender makes on a second reading of the destination address. */
  function Plan(wordAligned: bool, src: nat, dst: nat, size: nat): seq<Access> {
    if wordAligned then
      assert DoublesEnd(src, dst, size) <= size;
      LeadPlan(src, dst, size) + (DoublesPlan(src, dst, size) + WordsFrom(DoublesEnd(src, dst, size), size))
    else BytesPlan(size)
  }

  predicate WordAligned(src: nat, dst: nat) {
    src % 4 == 0 && dst % 4 == 0
  }

  /** The accesses cover the bytes from `off` up to `end` once each, in order. */
  predicate Tiles(plan: seq<Access>, off: nat, end: nat) {
    if plan == [] then off == end
    else plan[0].offset == off && plan[0].width > 0 && Tiles(plan[1..], off + plan[0].width, end)
  }

  /** Every access is a byte, word or doubleword at an address of that alignment, at both ends. */
  predicate Natural(plan: seq<Access>, src: nat, dst: nat) {
    forall i :: 0 <= i < |plan| ==> NaturalAt(plan[i], src, dst)
  }

  predicate NaturalAt(a: Access, src: nat, dst: nat) {
    (a.width == 1 || a.width == 4 || a.width == 8) &&
    (src + a.offset) % a.width == 0 && (dst + a.offset) % a.width == 0
  }

  /** Execute the accesses one after another on one memory. */
  function Perform(mem: seq<Byte>, src: nat, dst: nat, plan: seq<Access>): seq<Byte>
    decreases |plan|
  {
    if plan == [] then mem
    else
      var a := plan[0];
      Perform(Poke(mem, dst + a.offset, Slice(mem, src + a.offset, a.width)), src, dst, plan[1..])
  }

  // ----- covering

  lemma {:induction false} TilesAppend(a: seq<Access>, b: seq<Access>, off: nat, mid: nat, end: nat)
    requires Tiles(a, off, mid) && Tiles(b, mid, end)
    ensures Tiles(a + b, off, end)
  {
    if a == [] {
      assert a + b == b;
    } else {
      TilesAppend(a[1..], b, off + a[0].width, mid, end);
      assert (a + b)[1..] == a[1..] + b;
    }
  }

  lemma {:induction false} TilesSpan(plan: seq<Access>, off: nat, end: nat)
    requires Tiles(plan, off, end)
    ensures off <= end && |plan| <= end - off
    ensures forall i :: 0 <= i < |plan| ==> off <= plan[i].offset && plan[i].offset + plan[i].width <= end
    decreases |plan|
  {
    if plan != [] {
      TilesSpan(plan[1..], off + plan[0].width, end);
      forall i | 0 <= i < |plan|
        ensures off <= plan[i].offset && plan[i].offset + plan[i].width <= end
      {
        if i > 0 { assert plan[i] == plan[1..][i - 1]; }
      }
    }
  }

  lemma TilesHead(plan: seq<Access>, off: nat, end: nat)
    requires Tiles(plan, off, end) && plan != []
    ensures plan[0].offset == off && 0 < plan[0].width && off + plan[0].width <= end
  {
    TilesSpan(plan, off, end);
  }

  lemma {:induction false} BurstTiles(off: nat, width: nat, count: nat)
    requires width > 0
    ensures Tiles(Burst(off, width, count), off, off + width * count)
    decreases count
  {
    if count > 0 {
      BurstTiles(off + width, width, count - 1);
      assert off + width + width * (count - 1) == off + width * count;
      assert Burst(off, width, count)[1..] == Burst(off + width, width, count - 1);
    }
  }

  lemma {:induction false} BurstNatural(off: nat, width: nat, count: nat, src: nat, dst: nat)
    requires width == 1 || width == 4 || width == 8
    requires (src + off) % width == 0 && (dst + off) % width == 0
    ensures Natural(Burst(off, width, count), src, dst)
    decreases count
  {
    if count > 0 {
      Multiples(src + off, width, 1);
      Multiples(dst + off, width, 1);
      BurstNatural(off + width, width, count - 1, src, dst);
      NaturalAppend([Access(off, width)], Burst(off + width, width, count - 1), src, dst);
    }
  }

  lemma NaturalAppend(a: seq<Access>, b: seq<Access>, src: nat, dst: nat)
    requires Natural(a, src, dst) && Natural(b, src, dst)
    ensures Natural(a + b, src, dst)
  {
  }

  lemma {:induction false} BurstLength(off: nat, width: nat, count: nat)
    ensures |Burst(off, width, count)| == count
    decreases count
  {
    if count > 0 { BurstLength(off + width, width, count - 1); }
  }

  /** One burst after another is one longer burst. */
  lemma {:induction false} BurstJoin(off: nat, width: nat, a: nat, b: nat)
    ensures Burst(off, width, a) + Burst(off + width * a, width, b) == Burst(off, width, a + b)
    decreases a
  {
    if a > 0 {
      BurstJoin(off + width, width, a - 1, b);
      assert off + width + width * (a - 1) == off + width * a;
    }
  }

  lemma Multiples(a: nat, width: nat, count: nat)
    requires (width == 1 || width == 4 || width == 8) && a % width == 0 && count <= 8
    ensures width * count > 0 || count == 0
    ensures (a + width * count) % width == 0
  {
    if width == 1 {} else if width == 4 {} else {}
  }

  /** Every plan covers the message exactly once and in order, and each access is naturally
      aligned whenever the word path was chosen for word-aligned buffers. */
  lemma PlanCovers(wordAligned: bool, src: nat, dst: nat, size: nat)
    requires wordAligned ==> WordAligned(src, dst)
    ensures Tiles(Plan(wordAligned, src, dst, size), 0, size)
    ensures Natural(Plan(wordAligned, src, dst, size), src, dst)
  {
    if wordAligned {
      LeadFacts(src, dst, size);
      var lead, e := Lead(src, dst, size), DoublesEnd(src, dst, size);
      DoublesFacts(src, dst, size);
      WordsFacts(e, size, src, dst);
      TilesAppend(DoublesPlan(src, dst, size), WordsFrom(e, size), lead, e, size);
      TilesAppend(LeadPlan(src, dst, size), DoublesPlan(src, dst, size) + WordsFrom(e, size), 0, lead, size);
      NaturalAppend(DoublesPlan(src, dst, size), WordsFrom(e, size), src, dst);
      NaturalAppend(LeadPlan(src, dst, size), DoublesPlan(src, dst, size) + WordsFrom(e, size), src, dst);
    } else {
      BytesFacts(size, src, dst);
    }
  }

  lemma LeadFacts(src: nat, dst: nat, size: nat)
    requires WordAligned(src, dst)
    ensures Lead(src, dst, size) <= size
    ensures Tiles(LeadPlan(src, dst, size), 0, Lead(src, dst, size))
    ensures Natural(LeadPlan(src, dst, size), src, dst)
    ensures Paced(src, dst, size) ==>
              (src + Lead(src, dst, size)) % 8 == 0 && (dst + Lead(src, dst, size)) % 8 == 0
  {
    if Lead(src, dst, size) == 4 {
      assert LeadPlan(src, dst, size)[1..] == [];
    }
  }

  lemma DoublesFacts(src: nat, dst: nat, size: nat)
    requires WordAligned(src, dst)
    ensures Lead(src, dst, size) <= DoublesEnd(src, dst, size) <= size
    ensures Tiles(DoublesPlan(src, dst, size), Lead(src, dst, size), DoublesEnd(src, dst, size))
    ensures Natural(DoublesPlan(src, dst, size), src, dst)
    ensures (src + DoublesEnd(src, dst, size)) % 4 == 0 && (dst + DoublesEnd(src, dst, size)) % 4 == 0
  {
    LeadFacts(src, dst, size);
    if Paced(src, dst, size) {
      var lead := Lead(src, dst, size);
      var rounds := (size - lead) / 32;
      BurstTiles(lead, 8, 4 * rounds);
      BurstNatural(lead, 8, 4 * rounds, src, dst);
      DoublesLeaveWords(src + lead, rounds);
      DoublesLeaveWords(dst + lead, rounds);
    }
  }

  lemma DoublesLeaveWords(a: nat, rounds: nat)
    requires a % 8 == 0
    ensures (a + 32 * rounds) % 4 == 0
  {
  }

  lemma LeadTiles(src: nat, dst: nat, size: nat)
    ensures Tiles(LeadPlan(src, dst, size), 0, Lead(src, dst, size))
  {
    if Lead(src, dst, size) == 4 { assert LeadPlan(src, dst, size)[1..] == []; }
  }

  lemma DoublesTile(src: nat, dst: nat, size: nat)
    ensures Tiles(DoublesPlan(src, dst, size), Lead(src, dst, size), DoublesEnd(src, dst, size))
  {
    hide Tiles, Burst;
    var lead := Lead(src, dst, size);
    if Paced(src, dst, size) {
      BurstTiles(lead, 8, 4 * ((size - lead) / 32));
    } else {
      NothingTiles(lead);
    }
  }

  lemma NothingTiles(off: nat)
    ensures Tiles([], off, off)
  {
  }

  lemma WordsTile(off: nat, size: nat)
    requires off <= size
    ensures Tiles(WordsFrom(off, size), off, size)
  {
    hide Tiles, Burst;
    var quads := QuadsEnd(off, size);
    var words := WordsEnd(quads, size);
    var p, q, r := Burst(off, 4, 4 * ((size - off) / 16)), Burst(quads, 4, (size - quads) / 4),
        Burst(words, 1, size - words);
    BurstTiles(off, 4, 4 * ((size - off) / 16));
    BurstTiles(quads, 4, (size - quads) / 4);
    BurstTiles(words, 1, size - words);
    TilesAppend(q, r, quads, words, size);
    TilesAppend(p, q + r, off, quads, size);
  }

  lemma WordsFacts(off: nat, size: nat, src: nat, dst: nat)
    requires off <= size && (src + off) % 4 == 0 && (dst + off) % 4 == 0
    ensures Tiles(WordsFrom(off, size), off, size)
    ensures Natural(WordsFrom(off, size), src, dst)
  {
    hide Tiles, Natural, Burst;
    WordsTile(off, size);
    var quads := QuadsEnd(off, size);
    var words := WordsEnd(quads, size);
    var p, q, r := Burst(off, 4, 4 * ((size - off) / 16)), Burst(quads, 4, (size - quads) / 4),
        Burst(words, 1, size - words);
    BurstNatural(off, 4, 4 * ((size - off) / 16), src, dst);
    BurstNatural(quads, 4, (size - quads) / 4, src, dst);
    BurstNatural(words, 1, size - words, src, dst);
    NaturalAppend(q, r, src, dst);
    NaturalAppend(p, q + r, src, dst);
  }

  lemma BytesFacts(size: nat, src: nat, dst: nat)
    ensures Tiles(BytesPlan(size), 0, size)
    ensures Natural(BytesPlan(size), src, dst)
  {
    var e := OctetsEnd(size);
    BurstTiles(0, 1, e);
    BurstTiles(e, 1, size - e);
    TilesAppend(Burst(0, 1, e), Burst(e, 1, size - e), 0, e, size);
    BurstNatural(0, 1, e, src, dst);
    BurstNatural(e, 1, size - e, src, dst);
    NaturalAppend(Burst(0, 1, e), Burst(e, 1, size - e), src, dst);
  }

  lemma WordsLength(off: nat, size: nat)
    requires off <= size
    ensures |WordsFrom(off, size)| == (size - off) / 4 + (size - off) % 4
  {
    var quads := QuadsEnd(off, size);
    var words := WordsEnd(quads, size);
    BurstLength(off, 4, 4 * ((size - off) / 16));
    BurstLength(quads, 4, (size - quads) / 4);
    BurstLength(words, 1, size - words);
  }

  /** The number of stores, exactly: for long word buffers in step modulo eight, the leading word, four
      doublewords for every 32 bytes after it, and the rest in words and bytes; for other word buffers
      words and bytes; and bytes otherwise. */
  lemma PlanLength(src: nat, dst: nat, size: nat)
    ensures WordAligned(src, dst) && Paced(src, dst, size) ==>
              var lead := if (dst / 4) % 2 == 1 then 4 else 0;
              var rest := (size - lead) % 32;
              |Plan(true, src, dst, size)| == lead / 4 + 4 * ((size - lead) / 32) + rest / 4 + rest % 4
    ensures WordAligned(src, dst) && !Paced(src, dst, size) ==> |Plan(true, src, dst, size)| == size / 4 + size % 4
    ensures WordAligned(src, dst) && Paced(src, dst, size) ==> |Plan(true, src, dst, size)| <= 4 * (size / 32) + 11
    ensures |Plan(false, src, dst, size)| == size
  {
    hide Burst;
    BurstLength(0, 1, 8 * (size / 8));
    BurstLength(OctetsEnd(size), 1, size - OctetsEnd(size));
    if WordAligned(src, dst) {
      var lead := Lead(src, dst, size);
      if Paced(src, dst, size) {
        BurstLength(lead, 8, 4 * ((size - lead) / 32));
        assert size - lead - 32 * ((size - lead) / 32) == (size - lead) % 32;
      }
      WordsLength(DoublesEnd(src, dst, size), size);
    }
  }

  // ----- meaning

  /** The memory once the first `off` bytes of the message have been copied. */
  function CopiedTo(was: seq<Byte>, src: nat, dst: nat, off: nat): seq<Byte> {
    Poke(was, dst, Slice(was, src, off))
  }

  lemma {:induction false} PerformSnoc(mem: seq<Byte>, src: nat, dst: nat, plan: seq<Access>, a: Access)
    ensures Perform(mem, src, dst, plan + [a])
            == (var m := Perform(mem, src, dst, plan); Poke(m, dst + a.offset, Slice(m, src + a.offset, a.width)))
    decreases |plan|
  {
    hide Poke, Slice;
    if plan == [] {
      assert plan + [a] == [a];
      assert [a][1..] == [];
    } else {
      var b := plan[0];
      PerformSnoc(Poke(mem, dst + b.offset, Slice(mem, src + b.offset, b.width)), src, dst, plan[1..], a);
      assert (plan + [a])[1..] == plan[1..] + [a];
    }
  }

  lemma PokeAt(mem: seq<Byte>, at: nat, bytes: seq<Byte>, i: nat)
    requires at + |bytes| <= |mem| && i < |mem|
    ensures Poke(mem, at, bytes)[i] == if at <= i < at + |bytes| then bytes[i - at] else mem[i]
  {
  }

  lemma CopiedAt(was: seq<Byte>, src: nat, dst: nat, off: nat, i: nat)
    requires src + off <= |was| && dst + off <= |was| && i < |was|
    ensures CopiedTo(was, src, dst, off)[i] == if dst <= i < dst + off then was[src + (i - dst)] else was[i]
  {
    PokeAt(was, dst, Slice(was, src, off), i);
  }

  /** The rest of the source is as it was. */
  lemma SourceUntouched(was: seq<Byte>, src: nat, dst: nat, off: nat, width: nat, size: nat)
    requires off + width <= size
    requires src + size <= |was| && dst + size <= |was| && Disjoint(src, size, dst, size)
    ensures Slice(CopiedTo(was, src, dst, off), src + off, width) == Slice(was, src + off, width)
  {
    var mem := CopiedTo(was, src, dst, off);
    forall k | src + off <= k < src + off + width ensures mem[k] == was[k] {
      CopiedAt(was, src, dst, off, k);
    }
  }

  lemma PokeNext(mem: seq<Byte>, at: nat, a: seq<Byte>, b: seq<Byte>)
    requires at + |a| + |b| <= |mem|
    ensures Poke(Poke(mem, at, a), at + |a|, b) == Poke(mem, at, a + b)
  {
    assert mem[at + |a|..][|b|..] == mem[at + |a| + |b|..];
    var m := Poke(mem, at, a);
    assert m[..at + |a|] == mem[..at] + a;
    assert m[at + |a| + |b|..] == mem[at + |a| + |b|..];
    assert mem[..at] + a + b == mem[..at] + (a + b);
  }

  lemma CopiedExtends(was: seq<Byte>, src: nat, dst: nat, off: nat, width: nat, size: nat)
    requires off + width <= size
    requires src + size <= |was| && dst + size <= |was| && Disjoint(src, size, dst, size)
    ensures var mem := CopiedTo(was, src, dst, off);
            Poke(mem, dst + off, Slice(mem, src + off, width)) == CopiedTo(was, src, dst, off + width)
  {
    SourceUntouched(was, src, dst, off, width, size);
    assert Slice(was, src, off + width) == Slice(was, src, off) + Slice(was, src + off, width);
    PokeNext(was, dst, Slice(was, src, off), Slice(was, src + off, width));
  }

  /** Part way through: performing a plan that covers the rest completes the copy. */
  lemma {:induction false} PerformCompletes(was: seq<Byte>, src: nat, dst: nat, plan: seq<Access>, off: nat, size: nat)
    requires Tiles(plan, off, size)
    requires src + size <= |was| && dst + size <= |was| && Disjoint(src, size, dst, size)
    ensures Perform(CopiedTo(was, src, dst, off), src, dst, plan) == CopiedTo(was, src, dst, size)
    decreases |plan|
  {
    if plan != [] {
      TilesHead(plan, off, size);
      CopiedExtends(was, src, dst, off, plan[0].width, size);
      PerformCompletes(was, src, dst, plan[1..], off + plan[0].width, size);
    }
  }

  lemma NothingCopied(mem: seq<Byte>, src: nat, dst: nat)
    requires src <= |mem| && dst <= |mem|
    ensures CopiedTo(mem, src, dst, 0) == mem
  {
    assert mem[..dst] + [] + mem[dst..] == mem;
  }

  /** The copy engine is a byte copy, whatever the size and the alignment. */
  lemma PlanIsByteCopy(mem: seq<Byte>, wordAligned: bool, src: nat, dst: nat, size: nat)
    requires wordAligned ==> WordAligned(src, dst)
    requires src + size <= |mem| && dst + size <= |mem| && Disjoint(src, size, dst, size)
    ensures Perform(mem, src, dst, Plan(wordAligned, src, dst, size)) == CopiedTo(mem, src, dst, size)
  {
    PlanCovers(wordAligned, src, dst, size);
    NothingCopied(mem, src, dst);
    PerformCompletes(mem, src, dst, Plan(wordAligned, src, dst, size), 0, size);
  }
}
