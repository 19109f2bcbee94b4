/** Moving the connection list and the tasks' indexes into shared memory, as arrays of 32-bit words. */
module SharedLayout {
  import opened Connections
  import opened WorkingMemory

  const WORD_BYTES := 4
  const CONNECTION_BYTES := 24
  const CONNECTION_WORDS := 6

  // ----- words as bytes, least significant first

  predicate Int32(w: int) {
    -0x8000_0000 <= w < 0x8000_0000
  }

  function WordOctet(w: int, b: nat): Octet
    requires b < 4
  {
    if b == 0 then w % 256
    else if b == 1 then w / 256 % 256
    else if b == 2 then w / 256 / 256 % 256
    else w / 256 / 256 / 256 % 256
  }

  function EncodeWords(ws: seq<int>): (s: seq<Octet>)
    ensures |s| == WORD_BYTES * |ws|
  {
    seq(WORD_BYTES * |ws|, k requires 0 <= k < WORD_BYTES * |ws| => WordOctet(ws[k / 4], k % 4))
  }

  function FromOctets(a: Octet, b: Octet, c: Octet, d: Octet): int {
    var unsigned := a + 256 * b + 0x1_0000 * c + 0x100_0000 * d;
    if unsigned >= 0x8000_0000 then unsigned - 0x1_0000_0000 else unsigned
  }

  function ReadWord(mem: seq<Octet>, at: nat): int {
    if at + 4 <= |mem| then FromOctets(mem[at], mem[at + 1], mem[at + 2], mem[at + 3]) else 0
  }

  lemma WordRoundTrip(w: int)
    requires Int32(w)
    ensures FromOctets(WordOctet(w, 0), WordOctet(w, 1), WordOctet(w, 2), WordOctet(w, 3)) == w
  {
    var q1 := w / 256;
    var q2 := q1 / 256;
    var q3 := q2 / 256;
    assert w == 256 * q1 + w % 256 && q1 == 256 * q2 + q1 % 256 && q2 == 256 * q3 + q2 % 256;
    assert -128 <= q3 < 128;
    assert q3 % 256 == if q3 < 0 then q3 + 256 else q3;
  }

  /** A word written as part of an array is read back at its place. */
  lemma WordsRoundTrip(mem: seq<Octet>, at: nat, ws: seq<int>, i: nat)
    requires Holds(mem, Block(at, EncodeWords(ws))) && i < |ws| && Int32(ws[i])
    ensures ReadWord(mem, at + WORD_BYTES * i) == ws[i]
  {
    var bytes := EncodeWords(ws);
    var written := mem[at..at + |bytes|];
    assert written[4 * i] == mem[at + 4 * i] && written[4 * i + 1] == mem[at + 4 * i + 1];
    assert written[4 * i + 2] == mem[at + 4 * i + 2] && written[4 * i + 3] == mem[at + 4 * i + 3];
    assert bytes[4 * i] == WordOctet(ws[i], 0) && bytes[4 * i + 1] == WordOctet(ws[i], 1);
    assert bytes[4 * i + 2] == WordOctet(ws[i], 2) && bytes[4 * i + 3] == WordOctet(ws[i], 3);
    WordRoundTrip(ws[i]);
  }

  // ----- the list and the indexes as words

  /** The fields of a connection; its two endpoint pointers are still null. */
  function Field(c: Connection, f: nat): int {
    if f == 0 then c.source
    else if f == 1 then c.sourceKey
    else if f == 2 then c.sink
    else if f == 3 then c.sinkKey
    else 0
  }

  function ListWords(cs: seq<Connection>): (ws: seq<int>)
    ensures |ws| == CONNECTION_WORDS * |cs|
  {
    seq(CONNECTION_WORDS * |cs|, k requires 0 <= k < CONNECTION_WORDS * |cs| => Field(cs[k / 6], k % 6))
  }

  function ReadConnection(mem: seq<Octet>, at: nat): Connection {
    Connection(ReadWord(mem, at), ReadWord(mem, at + 4), ReadWord(mem, at + 8), ReadWord(mem, at + 12))
  }

  function ReadList(mem: seq<Octet>, at: nat, n: nat): seq<Connection> {
    seq(n, i requires 0 <= i < n => ReadConnection(mem, at + CONNECTION_BYTES * i))
  }

  function ReadIndex(mem: seq<Octet>, at: nat, n: nat): seq<int> {
    seq(n, i requires 0 <= i < n => ReadWord(mem, at + WORD_BYTES * i))
  }

  predicate Representable(l: Lists) {
    && (forall i :: 0 <= i < |l.master| ==>
          var c := l.master[i]; Int32(c.source) && Int32(c.sourceKey) && Int32(c.sink) && Int32(c.sinkKey))
    && |l.master| < 0x8000_0000
  }

  lemma ListRoundTrip(mem: seq<Octet>, at: nat, cs: seq<Connection>)
    requires Holds(mem, Block(at, EncodeWords(ListWords(cs))))
    requires forall i :: 0 <= i < |cs| ==>
             Int32(cs[i].source) && Int32(cs[i].sourceKey) && Int32(cs[i].sink) && Int32(cs[i].sinkKey)
    ensures ReadList(mem, at, |cs|) == cs
  {
    hide Holds, EncodeWords, ReadWord;
    var ws := ListWords(cs);
    forall i | 0 <= i < |cs| ensures ReadConnection(mem, at + CONNECTION_BYTES * i) == cs[i] {
      assert ws[6 * i] == cs[i].source && ws[6 * i + 1] == cs[i].sourceKey && ws[6 * i + 2] == cs[i].sink
          && ws[6 * i + 3] == cs[i].sinkKey;
      WordsRoundTrip(mem, at, ws, 6 * i);
      WordsRoundTrip(mem, at, ws, 6 * i + 1);
      WordsRoundTrip(mem, at, ws, 6 * i + 2);
      WordsRoundTrip(mem, at, ws, 6 * i + 3);
    }
  }

  /** The layout of an array of connections: entry i begins 24 i bytes from its start and holds source,
      source key, sink and sink key at bytes 0, 4, 8 and 12, then two null pointers. */
  lemma ConnectionLayout(mem: seq<Octet>, at: nat, cs: seq<Connection>, i: nat)
    requires Holds(mem, Block(at, EncodeWords(ListWords(cs)))) && i < |cs|
    requires Int32(cs[i].source) && Int32(cs[i].sourceKey) && Int32(cs[i].sink) && Int32(cs[i].sinkKey)
    ensures WordAt(mem, at + 24 * i, cs[i].source) && WordAt(mem, at + 24 * i + 4, cs[i].sourceKey)
    ensures WordAt(mem, at + 24 * i + 8, cs[i].sink) && WordAt(mem, at + 24 * i + 12, cs[i].sinkKey)
    ensures WordAt(mem, at + 24 * i + 16, 0) && WordAt(mem, at + 24 * i + 20, 0)
  {
    hide Holds, EncodeWords, WordAt;
    FieldLies(mem, at, cs, i, 0);
    FieldLies(mem, at, cs, i, 1);
    FieldLies(mem, at, cs, i, 2);
    FieldLies(mem, at, cs, i, 3);
    FieldLies(mem, at, cs, i, 4);
    FieldLies(mem, at, cs, i, 5);
  }

  lemma FieldLies(mem: seq<Octet>, at: nat, cs: seq<Connection>, i: nat, f: nat)
    requires Holds(mem, Block(at, EncodeWords(ListWords(cs)))) && i < |cs| && f < 6 && Int32(Field(cs[i], f))
    ensures WordAt(mem, at + 24 * i + 4 * f, Field(cs[i], f))
  {
    hide Holds, EncodeWords, WordAt;
    assert ListWords(cs)[6 * i + f] == Field(cs[i], f);
    WordLies(mem, at, ListWords(cs), 6 * i + f);
  }

  /** Four bytes, least significant first, of which the word is the signed value. */
  predicate WordAt(mem: seq<Octet>, at: nat, w: int) {
    && at + 4 <= |mem|
    && mem[at] as int + 256 * mem[at + 1] as int + 65536 * mem[at + 2] as int + 16777216 * mem[at + 3] as int
       == (if w < 0 then w + 4294967296 else w)
  }

  lemma WordLies(mem: seq<Octet>, at: nat, ws: seq<int>, i: nat)
    requires Holds(mem, Block(at, EncodeWords(ws))) && i < |ws| && Int32(ws[i])
    ensures WordAt(mem, at + 4 * i, ws[i])
  {
    hide EncodeWords;
    WordsRoundTrip(mem, at, ws, i);
  }

  lemma IndexRoundTrip(mem: seq<Octet>, at: nat, index: seq<nat>)
    requires Holds(mem, Block(at, EncodeWords(index)))
    requires forall i :: 0 <= i < |index| ==> Int32(index[i])
    ensures ReadIndex(mem, at, |index|) == index
  {
    hide Holds, EncodeWords, ReadWord;
    forall i | 0 <= i < |index| ensures ReadWord(mem, at + WORD_BYTES * i) == index[i] {
      WordsRoundTrip(mem, at, index, i);
    }
  }

  // ----- writing blocks one after the other

  /** Cleared memory is taken and the data copied to wherever the allocator said; when there was no
      room that is where free memory ends. */
  function Publish(s: Store, data: seq<Octet>): Store {
    if Fits(s, |data|) then Allocate(s, data) else s.(mem := WriteAt(s.mem, s.end, data))
  }

  function Offered(s: Store, size: nat): nat {
    if Fits(s, size) then Place(s, size) else s.end
  }

  function PublishAll(s: Store, datas: seq<seq<Octet>>): Store
    decreases |datas|
  {
    if datas == [] then s else Publish(PublishAll(s, datas[..|datas| - 1]), datas[|datas| - 1])
  }

  function Placed(s: Store, datas: seq<seq<Octet>>): (bs: seq<Block>)
    ensures |bs| == |datas|
    decreases |datas|
  {
    if datas == [] then []
    else
      var init, d := datas[..|datas| - 1], datas[|datas| - 1];
      Placed(s, init) + [Block(Offered(PublishAll(s, init), |d|), d)]
  }

  predicate AllFit(s: Store, datas: seq<seq<Octet>>)
    decreases |datas|
  {
    datas == [] || (AllFit(s, datas[..|datas| - 1]) && Fits(PublishAll(s, datas[..|datas| - 1]), |datas[|datas| - 1]|))
  }

  lemma {:induction false} FittingIsAllocating(s: Store, datas: seq<seq<Octet>>)
    requires AllFit(s, datas)
    ensures PublishAll(s, datas) == AllocateAll(s, datas) && Placed(s, datas) == Blocks(s, datas)
    decreases |datas|
  {
    if datas != [] { FittingIsAllocating(s, datas[..|datas| - 1]); }
  }

  /** The blocks lie inside working memory and none overlaps another. */
  predicate LaidOut(bs: seq<Block>, start: nat, top: nat) {
    && (forall i :: 0 <= i < |bs| ==> start <= bs[i].offset && bs[i].offset + |bs[i].data| <= top)
    && (forall i, j :: 0 <= i < j < |bs| ==>
          bs[i].offset + |bs[i].data| <= bs[j].offset || bs[j].offset + |bs[j].data| <= bs[i].offset)
  }

  lemma {:induction false} FitEndsAtLast(s: Store, datas: seq<seq<Octet>>)
    requires AllFit(s, datas)
    ensures PublishAll(s, datas).end == Bottom(Placed(s, datas), s.end)
    decreases |datas|
  {
  }

  /** The blocks are laid out properly if and only if each of them found room. */
  lemma {:induction false} LaidOutExactly(s: Store, datas: seq<seq<Octet>>)
    requires Valid(s) && forall i :: 0 <= i < |datas| ==> datas[i] != []
    ensures LaidOut(Placed(s, datas), s.start, s.end) <==> AllFit(s, datas)
    decreases |datas|
  {
    if datas != [] {
      var init, d := datas[..|datas| - 1], datas[|datas| - 1];
      var before, bs := Placed(s, init), Placed(s, datas);
      LaidOutExactly(s, init);
      if AllFit(s, datas) {
        FittedAreLaidOut(s, datas);
      } else if AllFit(s, init) {
        FitEndsAtLast(s, init);
        assert bs[|init|] == Block(PublishAll(s, init).end, d);
        if init != [] {
          assert bs[|init| - 1] == before[|init| - 1]
              && |before[|init| - 1].data| > 0 by { PlacedData(s, init, |init| - 1); }
        }
      } else {
        assert forall i :: 0 <= i < |before| ==> bs[i] == before[i];
        assert !LaidOut(before, s.start, s.end);
      }
    }
  }

  lemma {:induction false} PlacedData(s: Store, datas: seq<seq<Octet>>, i: nat)
    requires i < |datas|
    ensures Placed(s, datas)[i].data == datas[i]
    decreases |datas|
  {
    if i < |datas| - 1 { PlacedData(s, datas[..|datas| - 1], i); }
  }

  lemma FittedAreLaidOut(s: Store, datas: seq<seq<Octet>>)
    requires Valid(s) && AllFit(s, datas)
    ensures LaidOut(Placed(s, datas), s.start, s.end)
  {
    hide Stacked, AllFit;
    AllocationTheorem(s, datas);
    FittingIsAllocating(s, datas);
    var bs := Placed(s, datas);
    forall i | 0 <= i < |bs| ensures s.start <= bs[i].offset && bs[i].offset + |bs[i].data| <= s.end {
      StackedInside(bs, s.base, s.end, i);
    }
    forall i, j | 0 <= i < j < |bs| ensures bs[j].offset + |bs[j].data| <= bs[i].offset {
      StackedDisjoint(bs, s.base, s.end, i, j);
    }
  }

  // ----- the whole transfer

  /** The indexes of the first `n` tasks, leaving out those without connections. */
  function IndexDatas(lookups: seq<seq<nat>>, n: nat): seq<seq<Octet>>
    requires n <= |lookups|
  {
    if n == 0 then []
    else IndexDatas(lookups, n - 1) + (if lookups[n - 1] == [] then [] else [EncodeWords(lookups[n - 1])])
  }

  function SharedDatas(l: Lists, n: nat): seq<seq<Octet>>
    requires n <= |l.lookups|
  {
    [EncodeWords(ListWords(l.master))] + IndexDatas(l.lookups, n)
  }

  /** Where the index of task `t` is put. */
  function IndexOffset(s: Store, l: Lists, t: nat): nat
    requires t < |l.lookups|
  {
    Offered(PublishAll(s, SharedDatas(l, t)), WORD_BYTES * |l.lookups[t]|)
  }

  lemma NextIndex(s: Store, l: Lists, t: nat)
    requires t < |l.lookups|
    ensures PublishAll(s, SharedDatas(l, t + 1))
            == if l.lookups[t] == [] then PublishAll(s, SharedDatas(l, t))
              else Publish(PublishAll(s, SharedDatas(l, t)), EncodeWords(l.lookups[t]))
    ensures AllFit(s, SharedDatas(l, t + 1)) <==>
            AllFit(s, SharedDatas(l, t))
              && (l.lookups[t] == [] || Fits(PublishAll(s, SharedDatas(l, t)), WORD_BYTES * |l.lookups[t]|))
    ensures Placed(s, SharedDatas(l, t + 1)) == Placed(s, SharedDatas(l, t))
            + (if l.lookups[t] == [] then [] else [Block(IndexOffset(s, l, t), EncodeWords(l.lookups[t]))])
  {
    hide ListWords;
    var before, after := SharedDatas(l, t), SharedDatas(l, t + 1);
    if l.lookups[t] == [] {
      assert after == before;
    } else {
      assert after == before + [EncodeWords(l.lookups[t])];
      assert after[..|after| - 1] == before;
    }
  }

  /** Among the blocks written are the list and the index of every task that has one. */
  lemma {:induction false} IndexIsPlaced(s: Store, l: Lists, n: nat, t: nat)
    requires t < n <= |l.lookups| && l.lookups[t] != []
    ensures Block(IndexOffset(s, l, t), EncodeWords(l.lookups[t])) in Placed(s, SharedDatas(l, n))
  {
    hide SharedDatas, EncodeWords, Placed, IndexOffset;
    NextIndex(s, l, n - 1);
    if t < n - 1 { IndexIsPlaced(s, l, n - 1, t); }
  }

  lemma {:induction false} ListIsPlaced(s: Store, l: Lists, n: nat)
    requires n <= |l.lookups|
    ensures Block(Offered(s, CONNECTION_BYTES * |l.master|), EncodeWords(ListWords(l.master)))
            in Placed(s, SharedDatas(l, n))
  {
    if n == 0 {
      assert SharedDatas(l, 0) == [EncodeWords(ListWords(l.master))];
      assert SharedDatas(l, 0)[..0] == [];
      assert PublishAll(s, SharedDatas(l, 0)[..0]) == s;
      assert Placed(s, SharedDatas(l, 0))[0]
          == Block(Offered(s, CONNECTION_BYTES * |l.master|), EncodeWords(ListWords(l.master)));
    } else {
      hide SharedDatas, EncodeWords, Placed;
      ListIsPlaced(s, l, n - 1);
      NextIndex(s, l, n - 1);
    }
  }

  /** If everything fits, what the tasks read in shared memory is the host's own list, entry for entry,
      and its own index of every task. */
  lemma SharedListsFaithful(s: Store, l: Lists)
    requires Valid(s) && Representable(l) && AllFit(s, SharedDatas(l, |l.lookups|))
    requires forall t, i :: 0 <= t < |l.lookups| && 0 <= i < |l.lookups[t]| ==> l.lookups[t][i] < |l.master|
    ensures var mem := PublishAll(s, SharedDatas(l, |l.lookups|)).mem;
            && ReadList(mem, Offered(s, CONNECTION_BYTES * |l.master|), |l.master|) == l.master
            && forall t :: 0 <= t < |l.lookups| && l.lookups[t] != [] ==>
                 ReadIndex(mem, IndexOffset(s, l, t), |l.lookups[t]|) == l.lookups[t]
  {
    hide Holds, EncodeWords, ReadList, ReadIndex, SharedDatas, AllFit, Offered, IndexOffset, ListWords;
    var datas := SharedDatas(l, |l.lookups|);
    var mem := PublishAll(s, datas).mem;
    AllocationTheorem(s, datas);
    FittingIsAllocating(s, datas);
    ListIsPlaced(s, l, |l.lookups|);
    ListRoundTrip(mem, Offered(s, CONNECTION_BYTES * |l.master|), l.master);
    forall t | 0 <= t < |l.lookups| && l.lookups[t] != []
      ensures ReadIndex(mem, IndexOffset(s, l, t), |l.lookups[t]|) == l.lookups[t]
    {
      IndexIsPlaced(s, l, |l.lookups|, t);
      IndexRoundTrip(mem, IndexOffset(s, l, t), l.lookups[t]);
    }
  }

  lemma {:induction false} NoEmptyData(l: Lists, n: nat, i: nat)
    requires l.master != [] && n <= |l.lookups| && i < |SharedDatas(l, n)|
    ensures SharedDatas(l, n)[i] != []
  {
    if n > 0 && i == |SharedDatas(l, n)| - 1 && l.lookups[n - 1] != [] {
      assert SharedDatas(l, n)[i] == EncodeWords(l.lookups[n - 1]);
    } else if n > 0 {
      assert SharedDatas(l, n)[i] == SharedDatas(l, n - 1)[i];
      NoEmptyData(l, n - 1, i);
    }
  }

  /** The shared list and indexes lie inside working memory without overlapping if and only if each
      of them found room. */
  lemma SharedListsLaidOutExactly(s: Store, l: Lists)
    requires Valid(s) && l.master != []
    ensures LaidOut(Placed(s, SharedDatas(l, |l.lookups|)), s.start, s.end) <==> AllFit(s, SharedDatas(l, |l.lookups|))
  {
    hide SharedDatas, AllFit, LaidOut, Placed;
    var datas := SharedDatas(l, |l.lookups|);
    forall i | 0 <= i < |datas| ensures datas[i] != [] { NoEmptyData(l, |l.lookups|, i); }
    LaidOutExactly(s, datas);
  }

  /** Free memory has no room for the list, nor for the index of any task. */
  predicate RoomForNone(s: Store, l: Lists) {
    !Fits(s, CONNECTION_BYTES * |l.master|)
    && forall t :: 0 <= t < |l.lookups| && l.lookups[t] != [] ==> !Fits(s, WORD_BYTES * |l.lookups[t]|)
  }

  /** Then nothing is taken from free memory and everything is written where it ends. */
  lemma {:induction false} NothingTaken(s: Store, l: Lists, n: nat)
    requires RoomForNone(s, l) && n <= |l.lookups|
    ensures var s' := PublishAll(s, SharedDatas(l, n));
            s'.base == s.base && s'.start == s.start && s'.end == s.end && |s'.mem| == |s.mem|
  {
    hide SharedDatas, EncodeWords, ListWords, PublishAll, AllFit, Placed;
    OnlyTheList(s, l);
    if n > 0 {
      NothingTaken(s, l, n - 1);
      NextIndex(s, l, n - 1);
    }
  }

  /** The last task that has an index. */
  predicate LastIndexed(lookups: seq<seq<nat>>, n: nat, t: nat) {
    t < n <= |lookups| && lookups[t] != [] && forall u :: t < u < n ==> lookups[u] == []
  }

  lemma {:induction false} LastIndexWins(s: Store, l: Lists, n: nat, t: nat)
    requires RoomForNone(s, l) && LastIndexed(l.lookups, n, t)
    requires s.end + WORD_BYTES * |l.lookups[t]| <= |s.mem| && Int32(l.lookups[t][0])
    ensures ReadWord(PublishAll(s, SharedDatas(l, n)).mem, s.end) == l.lookups[t][0]
  {
    hide SharedDatas, EncodeWords, ListWords, PublishAll, AllFit, Placed, ReadWord;
    NothingTaken(s, l, n - 1);
    NextIndex(s, l, n - 1);
    if t < n - 1 {
      LastIndexWins(s, l, n - 1, t);
    } else {
      var before, data := PublishAll(s, SharedDatas(l, n - 1)), EncodeWords(l.lookups[t]);
      assert Publish(before, data).mem == WriteAt(before.mem, s.end, data);
      WrittenHolds(before.mem, s.end, data);
      WordsRoundTrip(WriteAt(before.mem, s.end, data), s.end, l.lookups[t], 0);
    }
  }

  lemma WrittenHolds(mem: seq<Octet>, at: nat, data: seq<Octet>)
    requires at + |data| <= |mem|
    ensures Holds(WriteAt(mem, at, data), Block(at, data))
  {
  }

  /** What happens without room, to every store and all lists: the transfer, which reports success,
      puts the list and the last task's index at the same place, and the number of that task's first
      connection is what is read back as the first word of the list, the source of its first entry. */
  lemma OverwrittenList(s: Store, l: Lists, t: nat)
    requires RoomForNone(s, l) && l.master != [] && LastIndexed(l.lookups, |l.lookups|, t)
    requires s.end + WORD_BYTES * |l.lookups[t]| <= |s.mem| && Int32(l.lookups[t][0])
    ensures Offered(s, CONNECTION_BYTES * |l.master|) == IndexOffset(s, l, t) == s.end
    ensures var list := ReadList(PublishAll(s, SharedDatas(l, |l.lookups|)).mem, s.end, |l.master|);
            list[0].source == l.lookups[t][0] && (l.lookups[t][0] != l.master[0].source ==> list != l.master)
  {
    hide ReadWord, PublishAll, SharedDatas;
    NothingTaken(s, l, t);
    LastIndexWins(s, l, |l.lookups|, t);
  }

  /** For example when working memory, which follows 32 bytes of header at an aligned address, has been
      used up: one connection from task 1 to task 2 reads back as coming from task 0. */
  lemma UsedUpMemory(base: nat, mem: seq<Octet>)
    requires Aligned(base) && base >= 64 && |mem| >= 64
    ensures var s, l := Store(base, 32, 32, mem), Lists([Connection(1, 5, 2, 6)], [[], [0], [0]]);
            && Valid(s) && IndexAgrees(l) && RoomForNone(s, l)
            && ReadList(PublishAll(s, SharedDatas(l, 3)).mem, 32, 1)[0].source == 0
  {
    hide ReadWord, PublishAll, SharedDatas;
    var s, l := Store(base, 32, 32, mem), Lists([Connection(1, 5, 2, 6)], [[], [0], [0]]);
    FitsExactly(s, CONNECTION_BYTES);
    FitsExactly(s, WORD_BYTES);
    assert l.master[..0] == [] && l.master == [] + [Connection(1, 5, 2, 6)];
    forall t | 0 <= t < 3 ensures l.lookups[t] == Naming(l.master, t) { NamingExtended([], Connection(1, 5, 2, 6), t); }
    OverwrittenList(s, l, 2);
  }

  // ----- the transfer as the host performs it

  datatype Descriptor = Descriptor(index: nat, connections: nat)

  class Layout {
    const arena: Arena
    var listOffset: nat
    var listLength: nat
    var descriptors: seq<Descriptor>

    constructor (arena: Arena, slots: nat)
      ensures this.arena == arena && listOffset == 0 && listLength == 0
      ensures descriptors == seq(slots, _ => Descriptor(0, 0))
    {
      this.arena := arena;
      listOffset, listLength := 0, 0;
      descriptors := seq(slots, _ => Descriptor(0, 0));
    }

    /** Take a cleared block and copy data into it; the allocator's result is not a sign of failure. */
    method PublishBlock(data: seq<Octet>) returns (offset: nat)
      requires Valid(arena.Contents()) && |data| <= arena.base && arena.start > 0
      modifies arena`end, arena.mem
      ensures Valid(arena.Contents()) && arena.Contents() == Publish(old(arena.Contents()), data)
      ensures offset == Offered(old(arena.Contents()), |data|) > 0
    {
      ghost var before := arena.Contents();
      offset := arena.Allocz(|data|);
      ghost var cleared := arena.mem[..];
      arena.Put(offset, data);
      assert WriteAt(cleared, offset, data) == Publish(before, data).mem;
    }

    method SetupConnections(l: Lists) returns (result: int)
      requires Valid(arena.Contents()) && arena.start > 0 && |descriptors| == |l.lookups|
      requires CONNECTION_BYTES * |l.master| <= arena.base
      requires forall t :: 0 <= t < |l.lookups| ==> WORD_BYTES * |l.lookups[t]| <= arena.base
      modifies `listOffset, `listLength, `descriptors, arena`end, arena.mem
      ensures result == if old(listOffset) != 0 then X_ERROR else X_SUCCESS
      ensures old(listOffset) != 0 || l.master == [] ==>
                listOffset == old(listOffset) && listLength == old(listLength) && descriptors == old(descriptors)
                && arena.Contents() == old(arena.Contents())
      ensures old(listOffset) == 0 && l.master != [] ==>
                && arena.Contents() == PublishAll(old(arena.Contents()), SharedDatas(l, |l.lookups|))
                && listOffset == Offered(old(arena.Contents()), CONNECTION_BYTES * |l.master|)
                && listLength == |l.master|
                && |descriptors| == |l.lookups|
                && forall t :: 0 <= t < |l.lookups| ==>
                     descriptors[t] == if l.lookups[t] == [] then old(descriptors)[t]
                                       else Descriptor(IndexOffset(old(arena.Contents()), l, t), |l.lookups[t]|)
    {
      hide EncodeWords, ListWords, PublishAll, SharedDatas, Publish, Offered;
      result := X_ERROR;
      if listOffset == 0 {
        if l.master == [] {
          result := X_SUCCESS;
        } else {
          ghost var s, was := arena.Contents(), descriptors;
          listOffset := PublishBlock(EncodeWords(ListWords(l.master)));
          listLength := |l.master|;
          OnlyTheList(s, l);
          var t := 0;
          while t < |l.lookups|
            invariant t <= |l.lookups| && Valid(arena.Contents())
            invariant listOffset == Offered(s, CONNECTION_BYTES * |l.master|) && listLength == |l.master|
            invariant arena.Contents() == PublishAll(s, SharedDatas(l, t))
            invariant |descriptors| == |l.lookups|
            invariant forall u :: t <= u < |l.lookups| ==> descriptors[u] == was[u]
            invariant forall u :: 0 <= u < t ==>
              descriptors[u] == if l.lookups[u] == [] then was[u] else Descriptor(IndexOffset(s, l, u), |l.lookups[u]|)
          {
            NextIndex(s, l, t);
            if l.lookups[t] != [] {
              var offset := PublishBlock(EncodeWords(l.lookups[t]));
              descriptors := descriptors[t := Descriptor(offset, |l.lookups[t]|)];
            }
            t := t + 1;
          }
          result := X_SUCCESS;
        }
      }
    }
  }

  lemma OnlyTheList(s: Store, l: Lists)
    ensures PublishAll(s, SharedDatas(l, 0)) == Publish(s, EncodeWords(ListWords(l.master)))
    ensures |EncodeWords(ListWords(l.master))| == CONNECTION_BYTES * |l.master|
  {
    var datas := SharedDatas(l, 0);
    assert datas == [EncodeWords(ListWords(l.master))] && datas[..0] == [];
  }
}
