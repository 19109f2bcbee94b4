/** Working memory of the shared application data: blocks are taken from its high end downwards, on
    8-byte boundaries of absolute addresses. */
module WorkingMemory {

  type Octet = x: int | 0 <= x < 256

  const LONGWORD := 8

  /** The address of the application data, the free part of working memory as offsets from that
      address, and the bytes at those offsets. */
  datatype Store = Store(base: nat, start: nat, end: nat, mem: seq<Octet>)

  datatype Block = Block(offset: nat, data: seq<Octet>)

  predicate Aligned(address: int) {
    address % LONGWORD == 0
  }

  predicate Valid(s: Store) {
    s.start <= s.end <= |s.mem|
  }

  /** The highest aligned place for a block below the end of free memory. */
  function Place(s: Store, size: nat): int {
    var address := s.base + s.end - size;
    address - address % LONGWORD - s.base
  }

  predicate Fits(s: Store, size: nat) {
    Place(s, size) >= s.start
  }

  /** Bytes that would fall past the end of the region are not represented. */
  function WriteAt(mem: seq<Octet>, at: nat, data: seq<Octet>): seq<Octet> {
    seq(|mem|, i requires 0 <= i < |mem| => if at <= i < at + |data| then data[i - at] else mem[i])
  }

  function Allocate(s: Store, data: seq<Octet>): Store {
    if Fits(s, |data|) then s.(end := Place(s, |data|), mem := WriteAt(s.mem, Place(s, |data|), data)) else s
  }

  function Zeros(n: nat): seq<Octet> {
    seq(n, _ => 0)
  }

  /** An aligned stretch of free memory. */
  predicate Suits(s: Store, size: nat, offset: nat) {
    s.start <= offset && offset + size <= s.end && Aligned(s.base + offset)
  }

  /** A block fits exactly when free memory holds some aligned stretch of its size. */
  lemma FitsExactly(s: Store, size: nat)
    ensures Fits(s, size) <==> exists offset :: Suits(s, size, offset)
    ensures Aligned(s.base + Place(s, size)) && Place(s, size) + size <= s.end < Place(s, size) + size + LONGWORD
  {
    var place := Place(s, size);
    if Fits(s, size) { assert Suits(s, size, place); }
    if offset :| Suits(s, size, offset) {
      NoCloser(s.base + offset, s.base + s.end - size, s.base + place);
    }
  }

  /** Rounding down passes no multiple. */
  lemma NoCloser(x: int, y: int, rounded: int)
    requires x <= y && x % LONGWORD == 0 && rounded == y - y % LONGWORD
    ensures x <= rounded
  {
  }

  // ----- any sequence of allocations

  function AllocateAll(s: Store, datas: seq<seq<Octet>>): Store
    decreases |datas|
  {
    if datas == [] then s else Allocate(AllocateAll(s, datas[..|datas| - 1]), datas[|datas| - 1])
  }

  /** The blocks obtained, in order; refused requests obtain none. */
  function Blocks(s: Store, datas: seq<seq<Octet>>): seq<Block>
    decreases |datas|
  {
    if datas == [] then []
    else
      var before, d := AllocateAll(s, datas[..|datas| - 1]), datas[|datas| - 1];
      Blocks(s, datas[..|datas| - 1]) + (if Fits(before, |d|) then [Block(Place(before, |d|), d)] else [])
  }

  predicate Resting(b: Block, base: nat, above: nat) {
    && Aligned(base + b.offset)
    && b.offset + |b.data| <= above < b.offset + |b.data| + LONGWORD
  }

  function Above(blocks: seq<Block>, top: nat, i: nat): nat
    requires i < |blocks|
  {
    if i == 0 then top else blocks[i - 1].offset
  }

  /** Each block is aligned and lies against the previous one, or against `top`, but for the padding. */
  predicate Stacked(blocks: seq<Block>, base: nat, top: nat) {
    forall i {:trigger Above(blocks, top, i)} :: 0 <= i < |blocks| ==> Resting(blocks[i], base, Above(blocks, top, i))
  }

  predicate Holds(mem: seq<Octet>, b: Block) {
    b.offset + |b.data| <= |mem| && mem[b.offset..b.offset + |b.data|] == b.data
  }

  function Bytes(blocks: seq<Block>): nat {
    if blocks == [] then 0 else Bytes(blocks[..|blocks| - 1]) + |blocks[|blocks| - 1].data|
  }

  function Bottom(blocks: seq<Block>, top: nat): nat {
    if blocks == [] then top else blocks[|blocks| - 1].offset
  }

  lemma {:induction false} StackedDisjoint(blocks: seq<Block>, base: nat, top: nat, i: nat, j: nat)
    requires Stacked(blocks, base, top) && i < j < |blocks|
    ensures blocks[j].offset + |blocks[j].data| <= blocks[i].offset
    decreases j
  {
    hide Aligned;
    assert Resting(blocks[j], base, Above(blocks, top, j));
    if i + 1 < j { StackedDisjoint(blocks, base, top, i, j - 1); }
  }

  lemma StackedFirst(blocks: seq<Block>, base: nat, top: nat)
    requires Stacked(blocks, base, top) && blocks != []
    ensures blocks[0].offset + |blocks[0].data| <= top
  {
    assert Resting(blocks[0], base, Above(blocks, top, 0));
  }

  lemma {:induction false} StackedInside(blocks: seq<Block>, base: nat, top: nat, i: nat)
    requires Stacked(blocks, base, top) && i < |blocks|
    ensures Bottom(blocks, top) <= blocks[i].offset && blocks[i].offset + |blocks[i].data| <= top
  {
    hide Aligned, Stacked;
    var last := |blocks| - 1;
    StackedFirst(blocks, base, top);
    if i < last { StackedDisjoint(blocks, base, top, i, last); }
    if i > 0 { StackedDisjoint(blocks, base, top, 0, i); }
  }

  /** The memory consumed is the bytes asked for and at most seven bytes of padding per block. */
  lemma {:induction false} StackedConsumption(blocks: seq<Block>, base: nat, top: nat)
    requires Stacked(blocks, base, top)
    ensures Bytes(blocks) <= top - Bottom(blocks, top) <= Bytes(blocks) + 7 * |blocks|
    decreases |blocks|
  {
    hide Aligned;
    if blocks != [] {
      var n := |blocks| - 1;
      var fewer := blocks[..n];
      forall i | 0 <= i < n ensures Resting(fewer[i], base, Above(fewer, top, i)) {
        assert Resting(blocks[i], base, Above(blocks, top, i));
      }
      assert Resting(blocks[n], base, Above(blocks, top, n));
      StackedConsumption(fewer, base, top);
      assert Bottom(fewer, top) == if n == 0 then top else blocks[n - 1].offset;
    }
  }

  lemma StackedSnoc(blocks: seq<Block>, b: Block, base: nat, top: nat)
    requires Stacked(blocks, base, top) && Resting(b, base, Bottom(blocks, top))
    ensures Stacked(blocks + [b], base, top)
  {
    var all := blocks + [b];
    forall i | 0 <= i < |all| ensures Resting(all[i], base, Above(all, top, i)) {
      if i < |blocks| { assert Resting(blocks[i], base, Above(blocks, top, i)); }
    }
  }

  /** What a sequence of allocations leaves: blocks stacked downwards inside working memory, each
      still holding what was put in it, and all other memory outside the padding untouched. */
  predicate Kept(s: Store, s': Store, blocks: seq<Block>)
    requires Valid(s)
  {
    && Valid(s') && s'.start == s.start && s'.base == s.base && |s'.mem| == |s.mem|
    && Stacked(blocks, s.base, s.end) && s'.end == Bottom(blocks, s.end) <= s.end
    && (forall i :: 0 <= i < |blocks| ==> Holds(s'.mem, blocks[i]))
    && s'.mem[s.end..] == s.mem[s.end..] && s'.mem[..s'.end] == s.mem[..s'.end]
  }

  /** Through any sequence of requests, granted or refused. */
  lemma {:induction false} AllocationTheorem(s: Store, datas: seq<seq<Octet>>)
    requires Valid(s)
    ensures Kept(s, AllocateAll(s, datas), Blocks(s, datas))
    decreases |datas|
  {
    if datas != [] {
      var init, d := datas[..|datas| - 1], datas[|datas| - 1];
      AllocationTheorem(s, init);
      var s1, blocks := AllocateAll(s, init), Blocks(s, init);
      if Fits(s1, |d|) {
        OneMoreBlock(s, s1, blocks, d);
      } else {
        assert Blocks(s, datas) == blocks;
      }
    }
  }

  lemma OneMoreBlock(s: Store, s1: Store, blocks: seq<Block>, d: seq<Octet>)
    requires Valid(s) && Kept(s, s1, blocks) && Fits(s1, |d|)
    ensures Kept(s, Allocate(s1, d), blocks + [Block(Place(s1, |d|), d)])
  {
    hide Aligned, Stacked;
    var b, s2 := Block(Place(s1, |d|), d), Allocate(s1, d);
    FitsExactly(s1, |d|);
    assert Resting(b, s.base, Bottom(blocks, s.end));
    StackedSnoc(blocks, b, s.base, s.end);
    forall i | 0 <= i < |blocks| ensures Holds(s2.mem, blocks[i]) {
      StackedInside(blocks, s.base, s.end, i);
      assert Holds(s1.mem, blocks[i]);
    }
    assert Holds(s2.mem, b);
    assert s2.mem[s.end..] == s1.mem[s.end..];
    assert s2.mem[..s2.end] == s1.mem[..s2.end] == s1.mem[..s1.end][..s2.end];
  }

  /** What a block holds, byte by byte. */
  lemma Written(mem: seq<Octet>, at: nat, data: seq<Octet>)
    requires at + |data| <= |mem|
    ensures var mem' := WriteAt(mem, at, data);
            && |mem'| == |mem| && mem'[at..at + |data|] == data
            && (forall i :: at <= i < at + |data| ==> mem'[i] == data[i - at])
            && forall i :: 0 <= i < |mem| && !(at <= i < at + |data|) ==> mem'[i] == mem[i]
  {
  }

  /** A granted request for cleared memory leaves zeros in the block and changes nothing else. */
  lemma ClearedBlock(s: Store, size: nat)
    requires Valid(s) && Fits(s, size)
    ensures var s', at := Allocate(s, Zeros(size)), Place(s, size);
            && s'.end == at && at + size <= s.end && |s'.mem| == |s.mem|
            && (forall i :: at <= i < at + size ==> s'.mem[i] == 0)
            && forall i :: 0 <= i < |s.mem| && !(at <= i < at + size) ==> s'.mem[i] == s.mem[i]
  {
    FitsExactly(s, size);
    Written(s.mem, Place(s, size), Zeros(size));
  }

  // ----- the allocators

  class Arena {
    const base: nat
    const start: nat
    var end: nat
    const mem: array<Octet>

    constructor (base: nat, start: nat, end: nat, mem: array<Octet>)
      requires start <= end <= mem.Length
      ensures this.base == base && this.start == start && this.end == end && this.mem == mem
    {
      this.base, this.start, this.end, this.mem := base, start, end, mem;
    }

    ghost function Contents(): Store
      reads this, mem
    {
      Store(base, start, end, mem[..])
    }

    /** Copy bytes into memory. */
    method Put(at: nat, data: seq<Octet>)
      modifies mem
      ensures mem[..] == WriteAt(old(mem[..]), at, data)
    {
      var i := 0;
      while i < |data| && at + i < mem.Length
        invariant 0 <= i <= |data| && (i == 0 || at + i <= mem.Length)
        invariant mem[..] == WriteAt(old(mem[..]), at, data[..i])
      {
        mem[at + i] := data[i];
        i := i + 1;
        assert mem[..] == WriteAt(old(mem[..]), at, data[..i]);
      }
      assert mem[..] == WriteAt(old(mem[..]), at, data);
    }

    /** Take cleared memory. The result is the end of free memory whether or not there was room: on
        failure it is the old end, not zero. */
    method Allocz(size: nat) returns (result: nat)
      requires Valid(Contents()) && size <= base + end
      modifies `end, mem
      ensures Valid(Contents()) && Contents() == Allocate(old(Contents()), Zeros(size))
      ensures result == if Fits(old(Contents()), size) then Place(old(Contents()), size) else old(end)
      ensures Fits(old(Contents()), size) ==>
                result + size <= old(end) && forall i :: result <= i < result + size ==> mem[i] == 0
      ensures forall i :: 0 <= i < mem.Length && !(result <= i < result + size) ==> mem[i] == old(mem[i])
      ensures !Fits(old(Contents()), size) ==> mem[..] == old(mem[..]) && end == old(end)
    {
      ghost var s := Contents();
      var address := base + end - size;
      address := address - address % LONGWORD;
      if address >= base + start {
        Put(address - base, Zeros(size));
        FitsExactly(s, size);
        Written(s.mem, address - base, Zeros(size));
        end := address - base;
      }
      result := end;
    }

    /** Store a copy of a string, with its terminator. */
    method AllocString(text: seq<Octet>) returns (result: nat)
      requires Valid(Contents()) && |text| + 1 <= base + end
      modifies `end, mem
      ensures Valid(Contents()) && Contents() == Allocate(old(Contents()), text + [0])
      ensures result == if Fits(old(Contents()), |text| + 1) then Place(old(Contents()), |text| + 1) else old(end)
      ensures Fits(old(Contents()), |text| + 1) ==>
                && result + |text| < old(end)
                && mem[result..result + |text|] == text && mem[result + |text|] == 0
      ensures forall i :: 0 <= i < mem.Length && !(result <= i <= result + |text|) ==> mem[i] == old(mem[i])
      ensures !Fits(old(Contents()), |text| + 1) ==> mem[..] == old(mem[..]) && end == old(end)
    {
      ghost var s := Contents();
      var size := |text| + 1;
      var address := base + end - size;
      address := address - address % LONGWORD;
      if address >= base + start {
        Put(address - base, text + [0]);
        FitsExactly(s, size);
        Written(s.mem, address - base, text + [0]);
        assert text == (text + [0])[..|text|];
        end := address - base;
      }
      result := end;
    }
  }

  /** What a caller can tell from the result. As long as working memory does not begin at offset zero
      the result is never zero; a request for at least one byte has failed if and only if the result
      is the end of free memory before the call. */
  lemma FailureSeen(s: Store, size: nat)
    requires Valid(s) && s.start > 0 && size > 0
    ensures var result := if Fits(s, size) then Place(s, size) else s.end;
            result > 0 && (result == s.end <==> !Fits(s, size))
  {
    FitsExactly(s, size);
  }
}
