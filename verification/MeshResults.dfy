/** What the mesh builder achieves: when it succeeds, which connections there are, and that a task
    and its neighbour find the two ends of one connection. */
module MeshResults {
  import opened Words
  import opened Connections
  import opened Mesh
  import EndpointLookup
  import A = Assembly

  /** The neighbouring coordinate, round the edge. */
  function Around(x: int, n: nat): int {
    if x < 0 then n - 1 else if x == n then 0 else x
  }

  function TaskAt(cols: nat, row: int, col: int): int {
    row * cols + col
  }

  function Target(rows: nat, cols: nat, k: Link): int {
    TaskAt(cols, Around(TargetRow(k), rows), Around(TargetCol(k), cols))
  }

  /** The sizes for which coordinates are computed without overflow, and rows tested rightly. */
  predicate Sound(rows: nat, cols: nat) {
    0 < rows <= cols < WORD / 2
  }

  lemma NoZeroProduct(x: int, n: nat)
    requires n > 0 && x * n == 0
    ensures x == 0
  {
  }

  lemma TaskAtUnique(cols: nat, r: int, c: int, r': int, c': int)
    requires 0 <= c < cols && 0 <= c' < cols && TaskAt(cols, r, c) == TaskAt(cols, r', c')
    ensures r == r' && c == c'
  {
    assert (r - r') * cols == c' - c;
    MultipleBelow(r - r', cols, c' - c);
    NoZeroProduct(r - r', cols);
  }

  lemma TaskAtBelow(rows: nat, cols: nat, r: nat, c: nat)
    requires r < rows && c < cols
    ensures 0 <= TaskAt(cols, r, c) < rows * cols
  {
    assert (r + 1) * cols <= rows * cols;
    assert (r + 1) * cols == r * cols + cols;
  }

  /** In a fully configured workgroup a link joins the task of its cell to the task of the neighbour. */
  lemma EndsOf(rows: nat, cols: nat, configured: seq<bool>, k: Link)
    requires Sound(rows, cols) && WorkgroupConfigured(configured, rows, cols) && k.row < rows && k.col < cols
    ensures ConnectionOf(rows, cols, configured, k)
            == Connection(TaskAt(cols, k.row, k.col), SendKey(k.dir), Target(rows, cols, k), ReceiveKey(k.dir))
    ensures Configured(configured, TaskAt(cols, k.row, k.col)) && Configured(configured, Target(rows, cols, k))
  {
    hide Wrapped, SendKey, ReceiveKey;
    WrappedStep(k.row, rows);
    WrappedStep(k.col, cols);
    WrappedStep(TargetRow(k), rows);
    WrappedStep(TargetCol(k), cols);
    TaskAtBelow(rows, cols, k.row, k.col);
    TaskAtBelow(rows, cols, Around(TargetRow(k), rows), Around(TargetCol(k), cols));
  }

  lemma SameSource(rows: nat, cols: nat, k: Link, k': Link)
    requires k.col < cols && k'.col < cols
    requires TaskAt(cols, k.row, k.col) == TaskAt(cols, k'.row, k'.col) && SendKey(k.dir) == SendKey(k'.dir)
    ensures k == k'
  {
    TaskAtUnique(cols, k.row, k.col, k'.row, k'.col);
  }

  /** Towards one direction, different cells have different neighbours. */
  lemma SameTarget(rows: nat, cols: nat, k: Link, k': Link)
    requires k.row < rows && k.col < cols && k'.row < rows && k'.col < cols
    requires Target(rows, cols, k) == Target(rows, cols, k') && ReceiveKey(k.dir) == ReceiveKey(k'.dir)
    ensures k == k'
  {
    TaskAtUnique(cols, Around(TargetRow(k), rows), Around(TargetCol(k), cols),
                       Around(TargetRow(k'), rows), Around(TargetCol(k'), cols));
  }

  /** The i-th connection of the mesh and the link it realises. */
  lemma MeshEntry(rows: nat, cols: nat, wrap: bool, configured: seq<bool>, i: nat) returns (k: Link)
    requires Sound(rows, cols) && WorkgroupConfigured(configured, rows, cols)
    requires i < |MeshConnections(rows, cols, wrap, configured)|
    ensures i < |MeshLinks(rows, cols, wrap, rows)| && k == MeshLinks(rows, cols, wrap, rows)[i]
    ensures Wanted(rows, cols, wrap, k)
    ensures k.row < rows && k.col < cols
    ensures MeshConnections(rows, cols, wrap, configured)[i]
            == Connection(TaskAt(cols, k.row, k.col), SendKey(k.dir), Target(rows, cols, k), ReceiveKey(k.dir))
    ensures Configured(configured, TaskAt(cols, k.row, k.col)) && Configured(configured, Target(rows, cols, k))
  {
    hide MeshLinks, Target, SendKey, ReceiveKey;
    k := MeshLinks(rows, cols, wrap, rows)[i];
    MeshLinksExact(rows, cols, wrap, rows, k);
    EndsOf(rows, cols, configured, k);
  }

  lemma MeshKeysUnique(rows: nat, cols: nat, wrap: bool, configured: seq<bool>)
    requires Sound(rows, cols) && WorkgroupConfigured(configured, rows, cols)
    ensures EndpointLookup.KeysUnique(MeshConnections(rows, cols, wrap, configured))
    ensures AllConfigured(configured, MeshConnections(rows, cols, wrap, configured))
  {
    hide MeshConnections, MeshLinks, Target, TaskAt, Configured;
    var cs := MeshConnections(rows, cols, wrap, configured);
    MeshLinksDistinct(rows, cols, wrap, rows);
    forall i, j | 0 <= i < |cs| && 0 <= j < |cs|
      ensures i < j ==> !(cs[i].source == cs[j].source && cs[i].sourceKey == cs[j].sourceKey)
      ensures i < j ==> !(cs[i].sink == cs[j].sink && cs[i].sinkKey == cs[j].sinkKey)
      ensures !(cs[i].source == cs[j].sink && cs[i].sourceKey == cs[j].sinkKey)
    {
      var k := MeshEntry(rows, cols, wrap, configured, i);
      var k' := MeshEntry(rows, cols, wrap, configured, j);
      if k.dir == k'.dir && i < j {
        if cs[i].source == cs[j].source { SameSource(rows, cols, k, k'); }
        if cs[i].sink == cs[j].sink { SameTarget(rows, cols, k, k'); }
      }
    }
    forall i | 0 <= i < |cs| ensures Configured(configured, cs[i].source) && Configured(configured, cs[i].sink) {
      var _ := MeshEntry(rows, cols, wrap, configured, i);
    }
  }

  /** With no more rows than columns every connection of the mesh is accepted. */
  lemma MeshAccepted(rows: nat, cols: nat, wrap: bool, configured: seq<bool>)
    requires Sound(rows, cols) && WorkgroupConfigured(configured, rows, cols)
    ensures var cs := MeshConnections(rows, cols, wrap, configured);
            AllAccepted(NoLists(|configured|), configured, cs) && A.Built(configured, cs).master == cs
  {
    hide MeshConnections, AllAccepted, Requests;
    var cs := MeshConnections(rows, cols, wrap, configured);
    MeshKeysUnique(rows, cols, wrap, configured);
    assert [] + cs == cs;
    UniqueKeysAccepted(NoLists(|configured|), configured, cs);
  }

  /** With more rows than columns some connection is refused, whatever there was before. */
  lemma MeshRefused(l: Lists, rows: nat, cols: nat, wrap: bool, configured: seq<bool>)
    requires 0 < cols < rows < WORD / 2
    ensures !AllAccepted(l, configured, MeshConnections(rows, cols, wrap, configured))
  {
    hide MeshLinks, AllAccepted;
    var k := Link(cols, 0, Upward);
    var links := MeshLinks(rows, cols, wrap, rows);
    MeshLinksExact(rows, cols, wrap, rows, k);
    assert k in links;
    var i :| 0 <= i < |links| && links[i] == k;
    WrappedStep(cols, rows);
    var cs := MeshConnections(rows, cols, wrap, configured);
    assert cs[i].source == NULL_TASK;
    if AllAccepted(l, configured, cs) { AcceptedAreConfigured(l, configured, cs, i); }
  }

  /** The builder's requests on an application without connections: accepted if and only if the
      workgroup has no more rows than columns. */
  lemma MeshTheorem(rows: nat, cols: nat, wrap: bool, configured: seq<bool>)
    requires 0 < rows < WORD / 2 && 0 < cols < WORD / 2 && WorkgroupConfigured(configured, rows, cols)
    ensures AllAccepted(NoLists(|configured|), configured, MeshConnections(rows, cols, wrap, configured))
            <==> rows <= cols
  {
    hide AllAccepted, MeshConnections;
    if rows <= cols { MeshAccepted(rows, cols, wrap, configured); }
    else { MeshRefused(NoLists(|configured|), rows, cols, wrap, configured); }
  }

  function Opposite(d: Direction): Direction {
    match d
    case Leftward => Rightward
    case Rightward => Leftward
    case Upward => Downward
    case Downward => Upward
  }

  /** The link by which the neighbour in the opposite direction reaches this cell. */
  function Inward(rows: nat, cols: nat, row: nat, col: nat, d: Direction): Link
    requires row < rows && col < cols
  {
    var back := Link(row, col, Opposite(d));
    Link(Around(TargetRow(back), rows), Around(TargetCol(back), cols), d)
  }

  lemma InwardArrives(rows: nat, cols: nat, wrap: bool, row: nat, col: nat, d: Direction)
    requires row < rows && col < cols
    ensures var k := Inward(rows, cols, row, col, d);
            && Target(rows, cols, k) == TaskAt(cols, row, col)
            && (Wanted(rows, cols, wrap, Link(row, col, Opposite(d))) ==> Wanted(rows, cols, wrap, k))
  {
  }

  lemma OutwardReturns(rows: nat, cols: nat, wrap: bool, k: Link)
    requires Wanted(rows, cols, wrap, k)
    ensures var r, c := Around(TargetRow(k), rows), Around(TargetCol(k), cols);
            0 <= r < rows && 0 <= c < cols && Wanted(rows, cols, wrap, Link(r, c, Opposite(k.dir)))
  {
  }

  lemma EntryOfLink(rows: nat, cols: nat, wrap: bool, configured: seq<bool>, k: Link) returns (i: nat)
    requires Sound(rows, cols) && WorkgroupConfigured(configured, rows, cols) && Wanted(rows, cols, wrap, k)
    ensures i < |MeshConnections(rows, cols, wrap, configured)|
    ensures MeshConnections(rows, cols, wrap, configured)[i]
            == Connection(TaskAt(cols, k.row, k.col), SendKey(k.dir), Target(rows, cols, k), ReceiveKey(k.dir))
  {
    hide MeshLinks, Target;
    MeshLinksExact(rows, cols, wrap, rows, k);
    var links := MeshLinks(rows, cols, wrap, rows);
    assert k in links;
    i :| 0 <= i < |links| && links[i] == k;
    EndsOf(rows, cols, configured, k);
  }

  /** The sending keys of a task: one for each direction in which it has a neighbour. */
  lemma SendingKeysExact(rows: nat, cols: nat, wrap: bool, configured: seq<bool>, row: nat, col: nat, key: int)
    requires Sound(rows, cols) && WorkgroupConfigured(configured, rows, cols) && row < rows && col < cols
    ensures SourceTaken(MeshConnections(rows, cols, wrap, configured), TaskAt(cols, row, col), key)
            <==> exists d :: key == SendKey(d) && Wanted(rows, cols, wrap, Link(row, col, d))
  {
    hide MeshConnections, Wanted, TaskAt, SendKey;
    var cs, t := MeshConnections(rows, cols, wrap, configured), TaskAt(cols, row, col);
    if SourceTaken(cs, t, key) {
      var i :| 0 <= i < |cs| && cs[i].source == t && cs[i].sourceKey == key;
      var k := MeshEntry(rows, cols, wrap, configured, i);
      TaskAtUnique(cols, k.row, k.col, row, col);
      assert k == Link(row, col, k.dir);
    }
    if d :| key == SendKey(d) && Wanted(rows, cols, wrap, Link(row, col, d)) {
      var i := EntryOfLink(rows, cols, wrap, configured, Link(row, col, d));
      assert cs[i].source == t && cs[i].sourceKey == key;
    }
  }

  /** The receiving keys of a task: again one for each neighbour, named after the side it is on. */
  lemma ReceivingKeysExact(rows: nat, cols: nat, wrap: bool, configured: seq<bool>, row: nat, col: nat, key: int)
    requires Sound(rows, cols) && WorkgroupConfigured(configured, rows, cols) && row < rows && col < cols
    ensures SinkTaken(MeshConnections(rows, cols, wrap, configured), TaskAt(cols, row, col), key)
            <==> exists d :: key == ReceiveKey(d) && Wanted(rows, cols, wrap, Link(row, col, Opposite(d)))
  {
    hide MeshConnections, Wanted, TaskAt, ReceiveKey;
    var cs, t := MeshConnections(rows, cols, wrap, configured), TaskAt(cols, row, col);
    if SinkTaken(cs, t, key) {
      var i :| 0 <= i < |cs| && cs[i].sink == t && cs[i].sinkKey == key;
      var k := MeshEntry(rows, cols, wrap, configured, i);
      OutwardReturns(rows, cols, wrap, k);
      TaskAtUnique(cols, Around(TargetRow(k), rows), Around(TargetCol(k), cols), row, col);
      assert key == ReceiveKey(k.dir) && Wanted(rows, cols, wrap, Link(row, col, Opposite(k.dir)));
    }
    if d :| key == ReceiveKey(d) && Wanted(rows, cols, wrap, Link(row, col, Opposite(d))) {
      InwardArrives(rows, cols, wrap, row, col, d);
      var i := EntryOfLink(rows, cols, wrap, configured, Inward(rows, cols, row, col, d));
      assert cs[i].sink == t && cs[i].sinkKey == key;
    }
  }

  /** In a torus every task has all eight keys, and no others. */
  lemma TorusKeys(rows: nat, cols: nat, configured: seq<bool>, row: nat, col: nat, key: int)
    requires Sound(rows, cols) && WorkgroupConfigured(configured, rows, cols) && row < rows && col < cols
    ensures var cs, t := MeshConnections(rows, cols, true, configured), TaskAt(cols, row, col);
            && (SourceTaken(cs, t, key) <==> key in {TO_LEFT, TO_ABOVE, TO_RIGHT, TO_BELOW})
            && (SinkTaken(cs, t, key) <==> key in {FROM_LEFT, FROM_ABOVE, FROM_RIGHT, FROM_BELOW})
  {
    hide MeshConnections, SourceTaken, SinkTaken, TaskAt;
    SendingKeysExact(rows, cols, true, configured, row, col, key);
    ReceivingKeysExact(rows, cols, true, configured, row, col, key);
    assert key == TO_LEFT ==> key == SendKey(Leftward);
    assert key == TO_ABOVE ==> key == SendKey(Upward);
    assert key == TO_RIGHT ==> key == SendKey(Rightward);
    assert key == TO_BELOW ==> key == SendKey(Downward);
    assert key == FROM_LEFT ==> key == ReceiveKey(Rightward);
    assert key == FROM_ABOVE ==> key == ReceiveKey(Downward);
    assert key == FROM_RIGHT ==> key == ReceiveKey(Leftward);
    assert key == FROM_BELOW ==> key == ReceiveKey(Upward);
  }

  predicate FoundAt(l: Lists, t: int, a: nat, key: int)
    requires Consistent(l) && 0 <= t < |l.lookups| && a < |l.lookups[t]|
  {
    EndpointLookup.Answers(l.master, EndpointLookup.EndpointsOf(l, t)[a], key)
  }

  /** The one endpoint at which task `t` finds `key` is its end of connection `c`. */
  predicate FindsOnly(l: Lists, t: int, key: int, c: nat)
    requires Consistent(l)
  {
    && 0 <= t < |l.lookups|
    && (exists a :: 0 <= a < |l.lookups[t]| && FoundAt(l, t, a, key))
    && (forall a :: 0 <= a < |l.lookups[t]| && FoundAt(l, t, a, key) ==> l.lookups[t][a] == c)
  }

  lemma EntryFoundAtBothEnds(l: Lists, c: nat)
    requires Consistent(l) && EndpointLookup.KeysUnique(l.master) && c < |l.master|
    requires l.master[c].source != l.master[c].sink
    ensures FindsOnly(l, l.master[c].source, l.master[c].sourceKey, c)
    ensures FindsOnly(l, l.master[c].sink, l.master[c].sinkKey, c)
  {
    hide EndpointLookup.Answers, EndpointLookup.KeysUnique, Consistent;
    var conn := l.master[c];
    A.SlotsOf(l, c);
    assert TasksInRange(l) by { ConsistentInRange(l); }
    EndpointLookup.LookupFindsBothEnds(l, c, A.SourceSlot(l.master, c));
    EndpointLookup.LookupFindsBothEnds(l, c, A.SinkSlot(l.master, c));
    assert FoundAt(l, conn.source, A.SourceSlot(l.master, c), conn.sourceKey);
    assert FoundAt(l, conn.sink, A.SinkSlot(l.master, c), conn.sinkKey);
    forall a | 0 <= a < |l.lookups[conn.source]| && FoundAt(l, conn.source, a, conn.sourceKey)
      ensures l.lookups[conn.source][a] == c
    {
      EndpointLookup.LookupFindsBothEnds(l, c, a);
    }
    forall a | 0 <= a < |l.lookups[conn.sink]| && FoundAt(l, conn.sink, a, conn.sinkKey)
      ensures l.lookups[conn.sink][a] == c
    {
      EndpointLookup.LookupFindsBothEnds(l, c, a);
    }
  }

  lemma ConsistentInRange(l: Lists)
    requires Consistent(l)
    ensures TasksInRange(l)
  {
  }

  ghost predicate FindOneConnection(l: Lists, t: int, key: int, t': int, key': int)
    requires Consistent(l)
  {
    exists c :: FindsOnly(l, t, key, c) && FindsOnly(l, t', key', c)
  }

  /** A task asking for its key towards a neighbour, and that neighbour asking for its key from the
      task, find the two ends of one connection, unless the "neighbour" is the task itself. */
  lemma NeighboursConnected(rows: nat, cols: nat, wrap: bool, configured: seq<bool>, k: Link)
    requires Sound(rows, cols) && WorkgroupConfigured(configured, rows, cols) && Wanted(rows, cols, wrap, k)
    requires Target(rows, cols, k) != TaskAt(cols, k.row, k.col)
    ensures FindOneConnection(A.Built(configured, MeshConnections(rows, cols, wrap, configured)),
                              TaskAt(cols, k.row, k.col), SendKey(k.dir), Target(rows, cols, k), ReceiveKey(k.dir))
  {
    hide MeshConnections, FindsOnly, Target, TaskAt, SendKey, ReceiveKey, A.Built, EndpointLookup.KeysUnique,
        WorkgroupConfigured, Wanted;
    MeshAccepted(rows, cols, wrap, configured);
    MeshKeysUnique(rows, cols, wrap, configured);
    var l := A.Built(configured, MeshConnections(rows, cols, wrap, configured));
    var c := EntryOfLink(rows, cols, wrap, configured, k);
    ConsistentInRange(l);
    EntryFoundAtBothEnds(l, c);
  }

  /** A mesh connects some task with itself exactly when it wraps around a single row or column. */
  lemma SelfConnectionsExactly(rows: nat, cols: nat, wrap: bool, configured: seq<bool>)
    requires Sound(rows, cols) && WorkgroupConfigured(configured, rows, cols)
    ensures A.NoneToSelf(MeshConnections(rows, cols, wrap, configured)) <==> !wrap || (rows >= 2 && cols >= 2)
  {
    hide MeshConnections, SendKey, ReceiveKey, TaskAt, WorkgroupConfigured;
    var cs := MeshConnections(rows, cols, wrap, configured);
    if wrap && rows == 1 {
      var k := Link(0, 0, Upward);
      var i := EntryOfLink(rows, cols, wrap, configured, k);
      assert cs[i].source == cs[i].sink;
    }
    if !wrap || (rows >= 2 && cols >= 2) {
      forall i | 0 <= i < |cs| ensures cs[i].source != cs[i].sink {
        var k := MeshEntry(rows, cols, wrap, configured, i);
        if cs[i].source == cs[i].sink {
          TaskAtUnique(cols, k.row, k.col, Around(TargetRow(k), rows), Around(TargetCol(k), cols));
        }
      }
    }
  }

  lemma AroundIsModulo(x: int, n: nat)
    requires n > 0 && -1 <= x <= n
    ensures Around(x, n) == (x + n) % n
  {
    if x < 0 { ModUnique(x + n, 0, n - 1, n); }
    else if x == n { ModUnique(x + n, 2, 0, n); }
    else { ModUnique(x + n, 1, x, n); }
  }

  /** The directions by name: in a torus, what a task finds under its TO keys its four neighbours find
      under the FROM keys of the opposite sides. */
  lemma TorusNeighbours(rows: nat, cols: nat, configured: seq<bool>, r: nat, c: nat)
    requires Sound(rows, cols) && rows >= 2 && WorkgroupConfigured(configured, rows, cols) && r < rows && c < cols
    ensures var l := A.Built(configured, MeshConnections(rows, cols, true, configured));
            var t := r * cols + c;
            && FindOneConnection(l, t, TO_RIGHT, r * cols + (c + 1) % cols, FROM_LEFT)
            && FindOneConnection(l, t, TO_LEFT, r * cols + (c + cols - 1) % cols, FROM_RIGHT)
            && FindOneConnection(l, t, TO_BELOW, (r + 1) % rows * cols + c, FROM_ABOVE)
            && FindOneConnection(l, t, TO_ABOVE, (r + rows - 1) % rows * cols + c, FROM_BELOW)
  {
    hide FindOneConnection, A.Built, MeshConnections;
    Neighbour(rows, cols, configured, r, c, Rightward);
    Neighbour(rows, cols, configured, r, c, Leftward);
    Neighbour(rows, cols, configured, r, c, Downward);
    Neighbour(rows, cols, configured, r, c, Upward);
    AroundIsModulo(c + 1, cols);
    AroundIsModulo(c - 1, cols);
    AroundIsModulo(r + 1, rows);
    AroundIsModulo(r - 1, rows);
    NextModulo(c, cols);
    NextModulo(r, rows);
  }

  lemma NextModulo(x: nat, n: nat)
    requires x < n
    ensures (x + 1 + n) % n == (x + 1) % n
  {
    if x + 1 == n { ModUnique(x + 1 + n, 2, 0, n); ModUnique(x + 1, 1, 0, n); }
    else { ModUnique(x + 1 + n, 1, x + 1, n); ModUnique(x + 1, 0, x + 1, n); }
  }

  lemma Neighbour(rows: nat, cols: nat, configured: seq<bool>, r: nat, c: nat, d: Direction)
    requires Sound(rows, cols) && rows >= 2 && WorkgroupConfigured(configured, rows, cols) && r < rows && c < cols
    ensures FindOneConnection(A.Built(configured, MeshConnections(rows, cols, true, configured)),
                              TaskAt(cols, r, c), SendKey(d), Target(rows, cols, Link(r, c, d)), ReceiveKey(d))
  {
    hide FindOneConnection, A.Built, MeshConnections, WorkgroupConfigured, TaskAt, SendKey, ReceiveKey;
    var k := Link(r, c, d);
    if Target(rows, cols, k) == TaskAt(cols, r, c) {
      TaskAtUnique(cols, Around(TargetRow(k), rows), Around(TargetCol(k), cols), r, c);
    }
    NeighboursConnected(rows, cols, true, configured, k);
  }
}
