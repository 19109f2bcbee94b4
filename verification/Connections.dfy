/** Building the connection list on the host: a master list, and for every task an index into it,
    both of which grow in chunks. */
module Connections {

  const CHUNK: nat := 20

  datatype Connection = Connection(source: int, sourceKey: int, sink: int, sinkKey: int)

  datatype Role = Source | Sink

  // ----- the lists as values

  /** The master list and the tasks' indexes; a task without an index has an empty one. */
  datatype Lists = Lists(master: seq<Connection>, lookups: seq<seq<nat>>)

  /** Entries that name task `t`, in order; one that names it twice is listed twice. */
  function Naming(master: seq<Connection>, t: int): seq<nat> {
    if master == [] then []
    else
      var n := |master| - 1;
      Naming(master[..n], t) + (if master[n].source == t then [n] else []) + (if master[n].sink == t then [n] else [])
  }

  predicate IndexAgrees(l: Lists) {
    forall t :: 0 <= t < |l.lookups| ==> l.lookups[t] == Naming(l.master, t)
  }

  predicate TasksInRange(l: Lists) {
    forall i :: 0 <= i < |l.master| ==> 0 <= l.master[i].source < |l.lookups| && 0 <= l.master[i].sink < |l.lookups|
  }

  predicate SourceKeysUnique(master: seq<Connection>) {
    forall i, j :: 0 <= i < j < |master| ==>
      !(master[i].source == master[j].source && master[i].sourceKey == master[j].sourceKey)
  }

  predicate SinkKeysUnique(master: seq<Connection>) {
    forall i, j :: 0 <= i < j < |master| ==>
      !(master[i].sink == master[j].sink && master[i].sinkKey == master[j].sinkKey)
  }

  /** Is there already a connection from, or to, this task under this key? */
  predicate SourceTaken(master: seq<Connection>, t: int, key: int) {
    exists i :: 0 <= i < |master| && master[i].source == t && master[i].sourceKey == key
  }

  predicate SinkTaken(master: seq<Connection>, t: int, key: int) {
    exists i :: 0 <= i < |master| && master[i].sink == t && master[i].sinkKey == key
  }

  /** What the program looks at for a receiving task: the first entry of its index only. */
  predicate SinkTakenByFirst(l: Lists, t: int, key: int) {
    0 <= t < |l.lookups| && l.lookups[t] != [] && l.lookups[t][0] < |l.master| &&
    l.master[l.lookups[t][0]].sink == t && l.master[l.lookups[t][0]].sinkKey == key
  }

  predicate Configured(configured: seq<bool>, t: int) {
    0 <= t < |configured| && configured[t]
  }

  /** A connection is accepted between configured tasks whose keys pass the two tests. */
  predicate Accepts(l: Lists, configured: seq<bool>, c: Connection) {
    && Configured(configured, c.source) && !SourceTaken(l.master, c.source, c.sourceKey)
    && Configured(configured, c.sink) && !SinkTakenByFirst(l, c.sink, c.sinkKey)
  }

  function Extended(l: Lists, c: Connection): Lists {
    var n := |l.master|;
    Lists(l.master + [c],
          seq(|l.lookups|, t requires 0 <= t < |l.lookups| =>
            l.lookups[t] + (if c.source == t then [n] else []) + (if c.sink == t then [n] else [])))
  }

  /** The lists after a request, and whether it was accepted. */
  function Request(l: Lists, configured: seq<bool>, c: Connection): (Lists, bool) {
    if Accepts(l, configured, c) then (Extended(l, c), true) else (l, false)
  }

  /** A request is accepted if both tasks are configured and no test finds a key taken; then there is one
      entry more, at the end. Otherwise nothing changes. */
  lemma RequestExact(l: Lists, configured: seq<bool>, c: Connection)
    ensures var (l', accepted) := Request(l, configured, c);
            && (accepted <==>
                  && Configured(configured, c.source) && !SourceTaken(l.master, c.source, c.sourceKey)
                  && Configured(configured, c.sink) && !SinkTakenByFirst(l, c.sink, c.sinkKey))
            && l'.master == l.master + (if accepted then [c] else [])
            && (!accepted ==> l' == l)
  {
  }

  function Requests(l: Lists, configured: seq<bool>, cs: seq<Connection>): Lists
    decreases |cs|
  {
    if cs == [] then l else Requests(Request(l, configured, cs[0]).0, configured, cs[1..])
  }

  function NoLists(tasks: nat): Lists {
    Lists([], seq(tasks, _ => []))
  }

  predicate Consistent(l: Lists) {
    IndexAgrees(l) && TasksInRange(l) && SourceKeysUnique(l.master)
  }

  // ----- facts about the indexes

  lemma {:induction false} NamingExact(master: seq<Connection>, t: int, i: nat)
    ensures i in Naming(master, t) <==> i < |master| && (master[i].source == t || master[i].sink == t)
    decreases |master|
  {
    if master != [] {
      var n := |master| - 1;
      NamingExact(master[..n], t, i);
    }
  }

  /** Without connections from a task to itself the index is strictly increasing. */
  lemma {:induction false} NamingIncreases(master: seq<Connection>, t: int)
    requires forall i :: 0 <= i < |master| ==> master[i].source != master[i].sink
    ensures forall a, b :: 0 <= a < b < |Naming(master, t)| ==> Naming(master, t)[a] < Naming(master, t)[b]
    decreases |master|
  {
    if master != [] {
      var n := |master| - 1;
      NamingIncreases(master[..n], t);
      forall a | 0 <= a < |Naming(master[..n], t)| ensures Naming(master[..n], t)[a] < n {
        NamingExact(master[..n], t, Naming(master[..n], t)[a]);
      }
    }
  }

  lemma NamingExtended(master: seq<Connection>, c: Connection, t: int)
    ensures Naming(master + [c], t)
            == Naming(master, t) + (if c.source == t then [|master|] else []) + (if c.sink == t then [|master|] else [])
  {
    assert (master + [c])[..|master|] == master;
  }

  // ----- what every accepted request keeps

  lemma ExtendedConsistent(l: Lists, configured: seq<bool>, c: Connection)
    requires Consistent(l) && Accepts(l, configured, c) && |configured| == |l.lookups|
    ensures Consistent(Extended(l, c)) && |Extended(l, c).lookups| == |l.lookups|
  {
    var l' := Extended(l, c);
    forall t | 0 <= t < |l'.lookups| ensures l'.lookups[t] == Naming(l'.master, t) {
      NamingExtended(l.master, c, t);
    }
  }

  /** Through any sequence of requests, accepted or not: every task's index is exactly the list of
      the entries that name it, and no two entries share a source and a source key. */
  lemma {:induction false} RequestsKeep(l: Lists, configured: seq<bool>, cs: seq<Connection>)
    requires Consistent(l) && |configured| == |l.lookups|
    ensures var l' := Requests(l, configured, cs);
            Consistent(l') && |l'.lookups| == |l.lookups| && l.master <= l'.master
    decreases |cs|
  {
    if cs != [] {
      if Accepts(l, configured, cs[0]) { ExtendedConsistent(l, configured, cs[0]); }
      RequestsKeep(Request(l, configured, cs[0]).0, configured, cs[1..]);
    }
  }

  lemma IndexTheorem(configured: seq<bool>, cs: seq<Connection>)
    ensures var l := Requests(NoLists(|configured|), configured, cs);
            Consistent(l) && |l.lookups| == |configured|
  {
    RequestsKeep(NoLists(|configured|), configured, cs);
  }

  // ----- sink keys

  predicate HoldsSource(master: seq<Connection>, i: nat, t: int, key: int) {
    i < |master| && master[i].source == t && master[i].sourceKey == key
  }

  /** A task's index leads to all of its entries, so looking through it is looking through the list. */
  lemma IndexCovers(l: Lists, t: int, key: int)
    requires Consistent(l) && 0 <= t < |l.lookups|
    ensures forall a :: 0 <= a < |l.lookups[t]| ==> l.lookups[t][a] < |l.master|
    ensures SourceTaken(l.master, t, key)
            <==> exists a :: 0 <= a < |l.lookups[t]| && HoldsSource(l.master, l.lookups[t][a], t, key)
  {
    forall a | 0 <= a < |l.lookups[t]| ensures l.lookups[t][a] < |l.master| {
      NamingExact(l.master, t, l.lookups[t][a]);
    }
    if SourceTaken(l.master, t, key) {
      var i :| 0 <= i < |l.master| && l.master[i].source == t && l.master[i].sourceKey == key;
      NamingExact(l.master, t, i);
      var a :| 0 <= a < |l.lookups[t]| && l.lookups[t][a] == i;
      assert HoldsSource(l.master, l.lookups[t][a], t, key);
    }
  }

  predicate HoldsSink(master: seq<Connection>, i: nat, t: int, key: int) {
    i < |master| && master[i].sink == t && master[i].sinkKey == key
  }

  /** A receiving key is in use if some entry of the task's index holds it; the program looks at the
      first entry only, so its answer is right exactly when the first entry that matters is entry 0. */
  lemma SinkTestExact(l: Lists, t: int, key: int)
    requires Consistent(l) && 0 <= t < |l.lookups|
    ensures SinkTaken(l.master, t, key)
            <==> exists a :: 0 <= a < |l.lookups[t]| && HoldsSink(l.master, l.lookups[t][a], t, key)
    ensures SinkTakenByFirst(l, t, key) <==> l.lookups[t] != [] && HoldsSink(l.master, l.lookups[t][0], t, key)
  {
    if SinkTaken(l.master, t, key) {
      var i :| 0 <= i < |l.master| && l.master[i].sink == t && l.master[i].sinkKey == key;
      NamingExact(l.master, t, i);
      var a :| 0 <= a < |l.lookups[t]| && l.lookups[t][a] == i;
      assert HoldsSink(l.master, l.lookups[t][a], t, key);
    }
  }

  lemma {:induction false} DuplicatesStay(l: Lists, configured: seq<bool>, cs: seq<Connection>)
    requires !SinkKeysUnique(l.master)
    ensures !SinkKeysUnique(Requests(l, configured, cs).master)
    decreases |cs|
  {
    if cs != [] {
      var l' := Request(l, configured, cs[0]).0;
      var i, j :| 0 <= i < j < |l.master| && l.master[i].sink == l.master[j].sink
          && l.master[i].sinkKey == l.master[j].sinkKey;
      assert l'.master[i] == l.master[i] && l'.master[j] == l.master[j];
      DuplicatesStay(l', configured, cs[1..]);
    }
  }

  /** Everything about a request is in order, its receiving key apart. */
  predicate WellSourced(l: Lists, configured: seq<bool>, c: Connection) {
    Configured(configured, c.source) && !SourceTaken(l.master, c.source, c.sourceKey) && Configured(configured, c.sink)
  }

  /** The request repeats a receiving key, and not one that the first entry of the index holds. */
  predicate Repeats(l: Lists, configured: seq<bool>, c: Connection) {
    WellSourced(l, configured, c) && SinkTaken(l.master, c.sink, c.sinkKey) && !SinkTakenByFirst(l, c.sink, c.sinkKey)
  }

  /** A request that repeats a receiving key is refused exactly when the first entry of the receiver's
      index is the one that holds the key. */
  lemma RepeatRefusedExactly(l: Lists, configured: seq<bool>, c: Connection)
    requires Consistent(l) && |configured| == |l.lookups|
    requires WellSourced(l, configured, c) && SinkTaken(l.master, c.sink, c.sinkKey)
    ensures l.lookups[c.sink] != []
    ensures Accepts(l, configured, c) <==> !HoldsSink(l.master, l.lookups[c.sink][0], c.sink, c.sinkKey)
  {
    SinkTestExact(l, c.sink, c.sinkKey);
  }

  /** The first entry of an index is first for ever. */
  lemma {:induction false} FirstEntryStays(l: Lists, configured: seq<bool>, cs: seq<Connection>, t: nat)
    requires Consistent(l) && |configured| == |l.lookups| && t < |l.lookups| && l.lookups[t] != []
    ensures var l' := Requests(l, configured, cs);
            && |l'.lookups| == |l.lookups| && l'.lookups[t] != [] && l'.lookups[t][0] == l.lookups[t][0]
            && l.master <= l'.master
    decreases |cs|
  {
    if cs != [] {
      if Accepts(l, configured, cs[0]) { ExtendedConsistent(l, configured, cs[0]); }
      FirstEntryStays(Request(l, configured, cs[0]).0, configured, cs[1..], t);
    }
  }

  /** The receiving key of a task's first connection belongs to that connection alone. */
  predicate FirstKeysProtected(l: Lists) {
    forall t, j :: 0 <= t < |l.lookups| && l.lookups[t] != [] && 0 <= j < |l.master| && l.lookups[t][0] < |l.master| ==>
      Protected(l.master, t, l.lookups[t][0], j)
  }

  predicate Protected(master: seq<Connection>, t: int, first: nat, j: nat)
    requires first < |master| && j < |master|
  {
    master[first].sink == t && HoldsSink(master, j, t, master[first].sinkKey) ==> j == first
  }

  lemma ExtendedProtects(l: Lists, configured: seq<bool>, c: Connection)
    requires Consistent(l) && FirstKeysProtected(l) && Accepts(l, configured, c) && |configured| == |l.lookups|
    ensures FirstKeysProtected(Extended(l, c))
  {
    var l', n := Extended(l, c), |l.master|;
    forall t, j | 0 <= t < |l'.lookups| && l'.lookups[t] != [] && 0 <= j < |l'.master| && l'.lookups[t][0] < |l'.master|
      ensures Protected(l'.master, t, l'.lookups[t][0], j)
    {
      if l.lookups[t] != [] {
        NamingExact(l.master, t, l.lookups[t][0]);
        if j < n { assert Protected(l.master, t, l.lookups[t][0], j); }
      } else {
        if j < n { NamingExact(l.master, t, j); }
      }
    }
  }

  lemma {:induction false} RequestsProtect(l: Lists, configured: seq<bool>, cs: seq<Connection>)
    requires Consistent(l) && FirstKeysProtected(l) && |configured| == |l.lookups|
    ensures FirstKeysProtected(Requests(l, configured, cs))
    decreases |cs|
  {
    if cs != [] {
      if Accepts(l, configured, cs[0]) {
        ExtendedConsistent(l, configured, cs[0]);
        ExtendedProtects(l, configured, cs[0]);
      }
      RequestsProtect(Request(l, configured, cs[0]).0, configured, cs[1..]);
    }
  }

  /** What is protected, after any requests. Take a connection `i` into task `t`. If it is the first in
      the index of `t`, no other connection has its receiving key, and every request that repeats the
      key is refused. If it is not, every request that repeats the key, and is in order otherwise, is
      accepted. */
  lemma OnlyFirstKeyProtected(configured: seq<bool>, cs: seq<Connection>, i: nat, c: Connection)
    requires i < |Requests(NoLists(|configured|), configured, cs).master|
    requires var l := Requests(NoLists(|configured|), configured, cs);
             c.sink == l.master[i].sink && c.sinkKey == l.master[i].sinkKey && WellSourced(l, configured, c)
    ensures var l, t := Requests(NoLists(|configured|), configured, cs), c.sink;
            && 0 <= t < |l.lookups| && l.lookups[t] != []
            && (Accepts(l, configured, c) <==> l.lookups[t][0] != i)
            && (l.lookups[t][0] == i ==>
                  forall j :: 0 <= j < |l.master| && j != i ==> !HoldsSink(l.master, j, t, c.sinkKey))
  {
    var l, t := Requests(NoLists(|configured|), configured, cs), c.sink;
    IndexTheorem(configured, cs);
    RequestsProtect(NoLists(|configured|), configured, cs);
    NamingExact(l.master, t, i);
    assert SinkTaken(l.master, t, c.sinkKey);
    RepeatRefusedExactly(l, configured, c);
    var first := l.lookups[t][0];
    NamingExact(l.master, t, first);
    assert Protected(l.master, t, first, i);
    if first == i {
      forall j | 0 <= j < |l.master| && j != i ensures !HoldsSink(l.master, j, t, c.sinkKey) {
        assert Protected(l.master, t, first, j);
      }
    }
  }

  /** One request keeps receiving keys unique if and only if it does not repeat one that the first
      entry of the receiver's index leaves open. */
  lemma SinkUniqueExactly(l: Lists, configured: seq<bool>, c: Connection)
    requires SinkKeysUnique(l.master)
    ensures SinkKeysUnique(Request(l, configured, c).0.master) <==> !Repeats(l, configured, c)
  {
    if Repeats(l, configured, c) {
      var m := Extended(l, c).master;
      var i :| 0 <= i < |l.master| && l.master[i].sink == c.sink && l.master[i].sinkKey == c.sinkKey;
      assert m[i].sink == m[|l.master|].sink && m[i].sinkKey == m[|l.master|].sinkKey;
    }
  }

  lemma {:induction false} SinkKeysFrom(l: Lists, configured: seq<bool>, cs: seq<Connection>)
    requires SinkKeysUnique(l.master)
    ensures SinkKeysUnique(Requests(l, configured, cs).master) <==>
            forall n :: 0 <= n < |cs| ==> !Repeats(Requests(l, configured, cs[..n]), configured, cs[n])
    decreases |cs|
  {
    if cs != [] {
      var l', rest := Request(l, configured, cs[0]).0, cs[1..];
      SinkUniqueExactly(l, configured, cs[0]);
      assert Requests(l, configured, cs[..0]) == l;
      forall n | 0 < n < |cs| ensures Requests(l, configured, cs[..n]) == Requests(l', configured, rest[..n - 1]) {
        assert cs[..n][0] == cs[0] && cs[..n][1..] == rest[..n - 1];
      }
      if SinkKeysUnique(l'.master) {
        SinkKeysFrom(l', configured, rest);
        forall n | 0 < n < |cs| ensures Repeats(Requests(l, configured, cs[..n]), configured, cs[n])
                                        <==> Repeats(Requests(l', configured, rest[..n - 1]), configured,
                                          rest[n - 1]) {}
        assert forall m :: 0 <= m < |rest| ==> rest[m] == cs[m + 1];
      } else {
        DuplicatesStay(l', configured, rest);
      }
    }
  }

  /** Receiving keys are unique after a sequence of requests if and only if no request repeated, when
      it was made, a receiving key other than that of the first connection of its receiver. */
  lemma SinkKeysExactly(configured: seq<bool>, cs: seq<Connection>)
    ensures SinkKeysUnique(Requests(NoLists(|configured|), configured, cs).master) <==>
            forall n :: 0 <= n < |cs| ==>
              !Repeats(Requests(NoLists(|configured|), configured, cs[..n]), configured, cs[n])
  {
    SinkKeysFrom(NoLists(|configured|), configured, cs);
  }

  /** Three connections into task 1: the third is accepted although it repeats the key of the second. */
  lemma DuplicateSinkKeyAccepted()
    ensures var cs := [Connection(0, 1, 1, 4), Connection(0, 2, 1, 5), Connection(0, 3, 1, 5)];
            var l := Requests(NoLists(2), [true, true], cs);
            l.master == cs && !SinkKeysUnique(l.master)
  {
    var conf := [true, true];
    var a, b, c := Connection(0, 1, 1, 4), Connection(0, 2, 1, 5), Connection(0, 3, 1, 5);
    var l0 := NoLists(2);
    var l1 := Extended(l0, a);
    var l2 := Extended(l1, b);
    assert Accepts(l0, conf, a);
    assert l1.master == [a] && l1.lookups[1] == [0];
    assert Accepts(l1, conf, b);
    assert l2.master == [a, b] && l2.lookups[1] == [0, 1];
    assert Accepts(l2, conf, c);
    var l3 := Extended(l2, c);
    assert l3.master == [a, b, c];
    assert [a, b, c][1..] == [b, c] && [b, c][1..] == [c] && [c][1..] == [];
    assert Requests(l2, conf, [c]) == Requests(l3, conf, []) == l3;
    assert Requests(l1, conf, [b, c]) == Requests(l2, conf, [c]);
    assert Requests(l0, conf, [a, b, c]) == Requests(l1, conf, [b, c]);
    assert l3.master[1].sink == l3.master[2].sink && l3.master[1].sinkKey == l3.master[2].sinkKey;
  }

  // ----- sequences of requests

  predicate AllAccepted(l: Lists, configured: seq<bool>, cs: seq<Connection>)
    decreases |cs|
  {
    cs == [] || (Accepts(l, configured, cs[0]) && AllAccepted(Extended(l, cs[0]), configured, cs[1..]))
  }

  lemma {:induction false} RequestsAppend(l: Lists, configured: seq<bool>, cs: seq<Connection>, ds: seq<Connection>)
    ensures Requests(l, configured, cs + ds) == Requests(Requests(l, configured, cs), configured, ds)
    ensures AllAccepted(l, configured, cs + ds) <==>
            AllAccepted(l, configured, cs) && AllAccepted(Requests(l, configured, cs), configured, ds)
    decreases |cs|
  {
    if cs == [] {
      assert cs + ds == ds;
    } else {
      assert (cs + ds)[1..] == cs[1..] + ds;
      RequestsAppend(Request(l, configured, cs[0]).0, configured, cs[1..], ds);
      assert AllAccepted(l, configured, cs + ds)
          <==> Accepts(l, configured, cs[0]) && AllAccepted(Extended(l, cs[0]), configured, cs[1..] + ds);
    }
  }

  lemma {:induction false} AcceptedAreConfigured(l: Lists, configured: seq<bool>, cs: seq<Connection>, i: nat)
    requires AllAccepted(l, configured, cs) && i < |cs|
    ensures Configured(configured, cs[i].source) && Configured(configured, cs[i].sink)
    decreases |cs|
  {
    if i > 0 { AcceptedAreConfigured(Extended(l, cs[0]), configured, cs[1..], i - 1); }
  }

  predicate AllConfigured(configured: seq<bool>, cs: seq<Connection>) {
    forall i :: 0 <= i < |cs| ==> Configured(configured, cs[i].source) && Configured(configured, cs[i].sink)
  }

  /** A set of connections between configured tasks, in which no task repeats a sending or a receiving
      key, is accepted whole, and the master list is then exactly that set in the order requested. */
  lemma {:induction false} UniqueKeysAccepted(l: Lists, configured: seq<bool>, cs: seq<Connection>)
    requires Consistent(l) && |configured| == |l.lookups| && AllConfigured(configured, cs)
    requires SourceKeysUnique(l.master + cs) && SinkKeysUnique(l.master + cs)
    ensures AllAccepted(l, configured, cs) && Requests(l, configured, cs).master == l.master + cs
    decreases |cs|
  {
    if cs == [] {
      assert l.master + cs == l.master;
    } else {
      FirstAccepted(l, configured, cs);
      var l' := Extended(l, cs[0]);
      ExtendedConsistent(l, configured, cs[0]);
      assert l'.master + cs[1..] == l.master + cs;
      UniqueKeysAccepted(l', configured, cs[1..]);
    }
  }

  lemma FirstAccepted(l: Lists, configured: seq<bool>, cs: seq<Connection>)
    requires Consistent(l) && cs != [] && AllConfigured(configured, cs)
    requires SourceKeysUnique(l.master + cs) && SinkKeysUnique(l.master + cs)
    ensures Accepts(l, configured, cs[0])
  {
    var all, n := l.master + cs, |l.master|;
    assert all[n] == cs[0];
    forall i | 0 <= i < n
      ensures !(l.master[i].source == cs[0].source && l.master[i].sourceKey == cs[0].sourceKey)
      ensures !(l.master[i].sink == cs[0].sink && l.master[i].sinkKey == cs[0].sinkKey)
    {
      assert all[i] == l.master[i];
    }
  }

  // ----- the host program's lists, grown in chunks

  const X_SUCCESS := 0
  const X_ERROR := -1
  const DUPLICATE := -1
  const NOT_CONFIGURED := -2

  /** A task's index: not yet allocated, or a block with room for `room` entries. */
  datatype Table = Unallocated | Table(room: nat, entries: seq<nat>)

  function Entries(t: Table): seq<nat> {
    if t.Unallocated? then [] else t.entries
  }

  /** The room that `used` elements get: whole chunks, and none to spare. */
  function RoomFor(used: nat): (room: nat)
    ensures used <= room < used + CHUNK && room % CHUNK == 0
  {
    (used + CHUNK - 1) / CHUNK * CHUNK
  }

  function Lookups(tables: seq<Table>): seq<seq<nat>> {
    seq(|tables|, t requires 0 <= t < |tables| => Entries(tables[t]))
  }

  /** Only the table of task `t` changes, by one more entry. */
  predicate Appended(before: seq<Table>, after: seq<Table>, t: nat, index: nat) {
    && |before| == |after| && t < |after|
    && (forall u :: 0 <= u < |after| && u != t ==> after[u] == before[u])
    && TableValid(after[t]) && Entries(after[t]) == Entries(before[t]) + [index]
  }

  lemma AppendedTwice(l: Lists, c: Connection, start: seq<Table>, middle: seq<Table>, end: seq<Table>)
    requires l.lookups == Lookups(start) && c.source >= 0 && c.sink >= 0
    requires Appended(start, middle, c.source, |l.master|) && Appended(middle, end, c.sink, |l.master|)
    ensures Lookups(end) == Extended(l, c).lookups
    ensures (forall t :: 0 <= t < |start| ==> TableValid(start[t])) ==>
              forall t :: 0 <= t < |end| ==> TableValid(end[t])
  {
    assert forall t :: 0 <= t < |end| ==> Lookups(end)[t] == Extended(l, c).lookups[t];
  }

  predicate TableValid(t: Table) {
    t.Table? ==> t.entries != [] && t.room == RoomFor(|t.entries|)
  }

  lemma RoomGrows(used: nat)
    ensures RoomFor(used + 1) == if used == RoomFor(used) then used + CHUNK else RoomFor(used)
  {
  }

  class Registry {
    var configured: seq<bool>
    var masterAllocated: nat
    var master: seq<Connection>
    var tables: seq<Table>

    ghost function Contents(): Lists
      reads this
    {
      Lists(master, Lookups(tables))
    }

    ghost predicate Valid()
      reads this
    {
      && |tables| == |configured|
      && masterAllocated == RoomFor(|master|)
      && (forall t :: 0 <= t < |tables| ==> TableValid(tables[t]))
      && Consistent(Contents())
    }

    constructor (taskSlots: nat)
      ensures Valid() && Contents() == NoLists(taskSlots) && configured == seq(taskSlots, _ => false)
    {
      configured := seq(taskSlots, _ => false);
      masterAllocated := 0;
      master := [];
      tables := seq(taskSlots, _ => Unallocated);
    }

    /** A task gets its executable. */
    method Configure(t: nat)
      requires Valid() && t < |configured|
      modifies `configured
      ensures Valid() && Contents() == old(Contents()) && configured == old(configured)[t := true]
    {
      configured := configured[t := true];
    }

    method ValidateTaskKey(t: int, key: int, role: Role) returns (result: int)
      requires Valid()
      ensures !Configured(configured, t) ==> result == -2
      ensures Configured(configured, t) && role.Source? ==> result == if SourceTaken(master, t, key) then -1 else 0
      ensures Configured(configured, t) && role.Sink? ==>
                result == if SinkTakenByFirst(Contents(), t, key) then -1 else 0
    {
      hide Consistent;
      result := NOT_CONFIGURED;
      if !(0 <= t < |configured|) || !configured[t] {
        return;
      }
      IndexCovers(Contents(), t, key);
      assert Contents().lookups[t] == Entries(tables[t]);
      if tables[t].Unallocated? {
        return 0;
      }
      var entries := tables[t].entries;
      var i := 0;
      if role.Source? {
        while i < |entries| && result == NOT_CONFIGURED
          invariant i <= |entries|
          invariant result == DUPLICATE || result == NOT_CONFIGURED
          invariant result == DUPLICATE <==> exists a :: 0 <= a < i && HoldsSource(master, entries[a], t, key)
        {
          var tested := master[entries[i]];
          if tested.source == t && tested.sourceKey == key {
            result := DUPLICATE;
          }
          i := i + 1;
        }
      } else {
        var tested := master[entries[0]];
        while i < |entries| && result == NOT_CONFIGURED
          invariant result == DUPLICATE || result == NOT_CONFIGURED
          invariant result == DUPLICATE ==> tested.sink == t && tested.sinkKey == key
          invariant i > 0 && result == NOT_CONFIGURED ==> !(tested.sink == t && tested.sinkKey == key)
        {
          if tested.sink == t && tested.sinkKey == key {
            result := DUPLICATE;
          }
          i := i + 1;
        }
      }
      if result != DUPLICATE {
        result := 0;
      }
    }

    method AddTaskEndpoint(t: nat, index: nat) returns (result: int)
      requires t < |tables| && TableValid(tables[t])
      modifies `tables
      ensures result == 0
      ensures Appended(old(tables), tables, t, index)
    {
      var table := tables[t];
      if table.Unallocated? {
        table := Table(CHUNK, []);
      }
      RoomGrows(|table.entries|);
      if |table.entries| == table.room {
        table := Table(table.room + CHUNK, table.entries);
      }
      tables := tables[t := Table(table.room, table.entries + [index])];
      result := 0;
    }

    method ConnectByTaskId(sender: int, senderKey: int, receiver: int, receiverKey: int) returns (result: int)
      requires Valid()
      modifies `masterAllocated, `master, `tables
      ensures Valid()
      ensures (Contents(), result == X_SUCCESS)
              == Request(old(Contents()), configured, Connection(sender, senderKey, receiver, receiverKey))
      ensures result == 0 || result == -1
      ensures result == 0 <==>
              && Configured(configured, sender) && !SourceTaken(old(master), sender, senderKey)
              && Configured(configured, receiver) && !SinkTakenByFirst(old(Contents()), receiver, receiverKey)
      ensures result == 0 ==> master == old(master) + [Connection(sender, senderKey, receiver, receiverKey)]
      ensures result == -1 ==> Contents() == old(Contents())
    {
      result := X_ERROR;
      var sending := ValidateTaskKey(sender, senderKey, Source);
      if sending == 0 {
        var receiving := ValidateTaskKey(receiver, receiverKey, Sink);
        if receiving == 0 {
          ghost var before, start := Contents(), tables;
          var added := Connection(sender, senderKey, receiver, receiverKey);
          RoomGrows(|master|);
          if masterAllocated == 0 {
            masterAllocated := CHUNK;
          } else if |master| == masterAllocated {
            masterAllocated := masterAllocated + CHUNK;
          }
          var index := |master|;
          master := master + [added];
          var first := AddTaskEndpoint(sender, index);
          if first == 0 {
            ghost var middle := tables;
            var second := AddTaskEndpoint(receiver, index);
            AppendedTwice(before, added, start, middle, tables);
            if second == 0 {
              result := X_SUCCESS;
            }
          }
          ExtendedConsistent(before, configured, added);
        }
      }
    }
  }
}
