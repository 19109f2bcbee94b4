/** The mesh builder itself: nested loops over the rows and columns of the workgroup. */
module MeshBuilder {
  import opened Connections
  import opened Mesh
  import MeshResults

  /** The results of a cell's four attempts; each keeps its previous value if there is no attempt. */
  datatype Outcome = Outcome(left: int, above: int, right: int, below: int)

  function Of(o: Outcome, d: Direction): int {
    match d
    case Leftward => o.left
    case Upward => o.above
    case Rightward => o.right
    case Downward => o.below
  }

  function Set(o: Outcome, d: Direction, r: int): Outcome {
    match d
    case Leftward => o.(left := r)
    case Upward => o.(above := r)
    case Rightward => o.(right := r)
    case Downward => o.(below := r)
  }

  function Min(a: int, b: int): int { if b < a then b else a }

  function Worst(result: int, o: Outcome): int {
    Min(Min(Min(Min(result, o.left), o.above), o.right), o.below)
  }

  /** The variable of a direction that the first cell does not use is read before it is written. */
  predicate UnwrittenHarmless(rows: nat, cols: nat, wrap: bool, before: Outcome) {
    forall d :: !Wanted(rows, cols, wrap, Link(0, 0, d)) ==> Of(before, d) >= 0
  }

  /** What one attempt does to the lists and to the variable that holds its result. */
  predicate LinkDone(l: Lists, l': Lists, configured: seq<bool>, rows: nat, cols: nat, wrap: bool, k: Link,
                     o: Outcome, o': Outcome)
    requires rows > 0 && cols > 0
  {
    var cs := ConnectionsOf(rows, cols, configured, IfWanted(rows, cols, wrap, k));
    && l' == Requests(l, configured, cs)
    && if !Wanted(rows, cols, wrap, k) then o' == o
       else o' == Set(o, k.dir, if AllAccepted(l, configured, cs) then X_SUCCESS else X_ERROR)
  }

  /** One direction of one cell. */
  method ConnectLink(reg: Registry, rows: nat, cols: nat, wrap: bool, k: Link, o: Outcome) returns (o': Outcome)
    requires reg.Valid() && k.row < rows && k.col < cols
    modifies reg`masterAllocated, reg`master, reg`tables
    ensures reg.Valid()
    ensures LinkDone(old(reg.Contents()), reg.Contents(), reg.configured, rows, cols, wrap, k, o, o')
  {
    o' := o;
    if Wanted(rows, cols, wrap, k) {
      var r := ConnectByWorkgroupCoords(reg, rows, cols, k.row, k.col, SendKey(k.dir), TargetRow(k), TargetCol(k),
          ReceiveKey(k.dir));
      o' := Set(o, k.dir, r);
      ghost var c := ConnectionOf(rows, cols, reg.configured, k);
      assert ConnectionsOf(rows, cols, reg.configured, [k]) == [c];
      assert [c][1..] == [];
    }
  }

  predicate Attempted(rows: nat, cols: nat, wrap: bool, k: Link, o: Outcome, o': Outcome) {
    if Wanted(rows, cols, wrap, k) then Of(o', k.dir) == X_SUCCESS || Of(o', k.dir) == X_ERROR
    else Of(o', k.dir) == Of(o, k.dir)
  }

  predicate Succeeded(rows: nat, cols: nat, wrap: bool, k: Link, o: Outcome) {
    Wanted(rows, cols, wrap, k) ==> Of(o, k.dir) == X_SUCCESS
  }

  /** Four attempts, each on the lists that the previous ones left. */
  lemma FourAttempts(l: Lists, configured: seq<bool>, a: seq<Connection>, b: seq<Connection>, c: seq<Connection>,
                     d: seq<Connection>)
    ensures var l1 := Requests(l, configured, a); var l2 := Requests(l1, configured, b);
            var l3 := Requests(l2, configured, c);
            && Requests(l, configured, a + b + c + d) == Requests(l3, configured, d)
            && (AllAccepted(l, configured, a + b + c + d) <==>
                AllAccepted(l, configured, a) && AllAccepted(l1, configured, b)
                && AllAccepted(l2, configured, c) && AllAccepted(l3, configured, d))
  {
    hide Requests, AllAccepted;
    RequestsAppend(l, configured, a, b);
    RequestsAppend(l, configured, a + b, c);
    RequestsAppend(l, configured, a + b + c, d);
  }

  lemma ConnectionsOfParts(rows: nat, cols: nat, configured: seq<bool>, a: seq<Link>, b: seq<Link>)
    requires rows > 0 && cols > 0
    ensures ConnectionsOf(rows, cols, configured, a + b) == ConnectionsOf(rows, cols, configured, a)
            + ConnectionsOf(rows, cols, configured, b)
  {
  }

  lemma NothingRefused(rows: nat, cols: nat, wrap: bool, configured: seq<bool>, k: Link, l: Lists)
    requires rows > 0 && cols > 0 && !Wanted(rows, cols, wrap, k)
    ensures AllAccepted(l, configured, ConnectionsOf(rows, cols, configured, IfWanted(rows, cols, wrap, k)))
  {
  }

  lemma SuccessIsAcceptance(l: Lists, l': Lists, configured: seq<bool>, rows: nat, cols: nat, wrap: bool, k: Link,
                            o: Outcome, o': Outcome)
    requires rows > 0 && cols > 0 && LinkDone(l, l', configured, rows, cols, wrap, k, o, o')
    ensures Attempted(rows, cols, wrap, k, o, o')
    ensures forall d :: d != k.dir ==> Of(o', d) == Of(o, d)
    ensures Succeeded(rows, cols, wrap, k, o') <==>
            AllAccepted(l, configured, ConnectionsOf(rows, cols, configured, IfWanted(rows, cols, wrap, k)))
  {
    hide Wanted, ConnectionOf, Requests;
    if !Wanted(rows, cols, wrap, k) { NothingRefused(rows, cols, wrap, configured, k, l); }
  }

  predicate CellDone(l: Lists, l': Lists, configured: seq<bool>, rows: nat, cols: nat, wrap: bool, row: nat, col: nat,
                     o: Outcome, o': Outcome)
    requires rows > 0 && cols > 0
  {
    var cs := ConnectionsOf(rows, cols, configured, CellLinks(rows, cols, wrap, row, col));
    && l' == Requests(l, configured, cs)
    && (forall d :: Attempted(rows, cols, wrap, Link(row, col, d), o, o'))
    && (AllAccepted(l, configured, cs) <==> forall d :: Succeeded(rows, cols, wrap, Link(row, col, d), o'))
  }

  lemma LinksMakeCell(l: seq<Lists>, configured: seq<bool>, rows: nat, cols: nat, wrap: bool, row: nat, col: nat,
                      o: seq<Outcome>)
    requires rows > 0 && cols > 0 && |l| == |o| == 5
    requires LinkDone(l[0], l[1], configured, rows, cols, wrap, Link(row, col, Leftward), o[0], o[1])
    requires LinkDone(l[1], l[2], configured, rows, cols, wrap, Link(row, col, Upward), o[1], o[2])
    requires LinkDone(l[2], l[3], configured, rows, cols, wrap, Link(row, col, Rightward), o[2], o[3])
    requires LinkDone(l[3], l[4], configured, rows, cols, wrap, Link(row, col, Downward), o[3], o[4])
    ensures CellDone(l[0], l[4], configured, rows, cols, wrap, row, col, o[0], o[4])
  {
    hide Wanted, ConnectionsOf, IfWanted, Requests, AllAccepted;
    var kl, ka, kr, kb := Link(row, col, Leftward), Link(row, col, Upward), Link(row, col, Rightward),
        Link(row, col, Downward);
    var wl, wa := IfWanted(rows, cols, wrap, kl), IfWanted(rows, cols, wrap, ka);
    var wr, wb := IfWanted(rows, cols, wrap, kr), IfWanted(rows, cols, wrap, kb);
    FourAttempts(l[0], configured, ConnectionsOf(rows, cols, configured, wl), ConnectionsOf(rows, cols, configured, wa),
                 ConnectionsOf(rows, cols, configured, wr), ConnectionsOf(rows, cols, configured, wb));
    ConnectionsOfParts(rows, cols, configured, wl, wa);
    ConnectionsOfParts(rows, cols, configured, wl + wa, wr);
    ConnectionsOfParts(rows, cols, configured, wl + wa + wr, wb);
    SuccessIsAcceptance(l[0], l[1], configured, rows, cols, wrap, kl, o[0], o[1]);
    SuccessIsAcceptance(l[1], l[2], configured, rows, cols, wrap, ka, o[1], o[2]);
    SuccessIsAcceptance(l[2], l[3], configured, rows, cols, wrap, kr, o[2], o[3]);
    SuccessIsAcceptance(l[3], l[4], configured, rows, cols, wrap, kb, o[3], o[4]);
    EachDirection(rows, cols, wrap, row, col, o[0], o[1], o[2], o[3], o[4]);
  }

  /** Each direction's variable is written by its own attempt only. */
  lemma EachDirection(rows: nat, cols: nat, wrap: bool, row: nat, col: nat, o0: Outcome, o1: Outcome, o2: Outcome,
                      o3: Outcome, o4: Outcome)
    requires forall d :: d != Leftward ==> Of(o1, d) == Of(o0, d)
    requires forall d :: d != Upward ==> Of(o2, d) == Of(o1, d)
    requires forall d :: d != Rightward ==> Of(o3, d) == Of(o2, d)
    requires forall d :: d != Downward ==> Of(o4, d) == Of(o3, d)
    requires Attempted(rows, cols, wrap, Link(row, col, Leftward), o0, o1)
    requires Attempted(rows, cols, wrap, Link(row, col, Upward), o1, o2)
    requires Attempted(rows, cols, wrap, Link(row, col, Rightward), o2, o3)
    requires Attempted(rows, cols, wrap, Link(row, col, Downward), o3, o4)
    ensures forall d :: Attempted(rows, cols, wrap, Link(row, col, d), o0, o4)
    ensures (forall d :: Succeeded(rows, cols, wrap, Link(row, col, d), o4)) <==>
            Succeeded(rows, cols, wrap, Link(row, col, Leftward), o1)
              && Succeeded(rows, cols, wrap, Link(row, col, Upward), o2)
            && Succeeded(rows, cols, wrap, Link(row, col, Rightward), o3)
            && Succeeded(rows, cols, wrap, Link(row, col, Downward), o4)
  {
    hide Wanted;
    assert Of(o4, Leftward) == Of(o1, Leftward) && Of(o4, Upward) == Of(o2, Upward)
        && Of(o4, Rightward) == Of(o3, Rightward);
    assert Of(o1, Upward) == Of(o0, Upward) && Of(o2, Rightward) == Of(o0, Rightward)
        && Of(o3, Downward) == Of(o0, Downward);
    forall d ensures Attempted(rows, cols, wrap, Link(row, col, d), o0, o4) {
      match d { case Leftward => case Upward => case Rightward => case Downward => }
    }
    assert Succeeded(rows, cols, wrap, Link(row, col, Leftward), o4)
        <==> Succeeded(rows, cols, wrap, Link(row, col, Leftward), o1);
    assert Succeeded(rows, cols, wrap, Link(row, col, Upward), o4)
        <==> Succeeded(rows, cols, wrap, Link(row, col, Upward), o2);
    assert Succeeded(rows, cols, wrap, Link(row, col, Rightward), o4)
        <==> Succeeded(rows, cols, wrap, Link(row, col, Rightward), o3);
  }

  method ConnectCell(reg: Registry, rows: nat, cols: nat, wrap: bool, row: nat, col: nat, o: Outcome)
    returns (o': Outcome)
    requires reg.Valid() && row < rows && col < cols
    modifies reg`masterAllocated, reg`master, reg`tables
    ensures reg.Valid()
    ensures CellDone(old(reg.Contents()), reg.Contents(), reg.configured, rows, cols, wrap, row, col, o, o')
  {
    hide LinkDone, CellDone;
    ghost var l0 := reg.Contents();
    var o1 := ConnectLink(reg, rows, cols, wrap, Link(row, col, Leftward), o);
    ghost var l1 := reg.Contents();
    var o2 := ConnectLink(reg, rows, cols, wrap, Link(row, col, Upward), o1);
    ghost var l2 := reg.Contents();
    var o3 := ConnectLink(reg, rows, cols, wrap, Link(row, col, Rightward), o2);
    ghost var l3 := reg.Contents();
    o' := ConnectLink(reg, rows, cols, wrap, Link(row, col, Downward), o3);
    LinksMakeCell([l0, l1, l2, l3, reg.Contents()], reg.configured, rows, cols, wrap, row, col, [o, o1, o2, o3, o']);
  }

  /** The state of the running result after at least the links `ks` have been attempted. */
  predicate Tally(rows: nat, cols: nat, wrap: bool, before: Outcome, o: Outcome, result: int, started: bool, ok: bool) {
    && result <= 0
    && (started ==> forall d :: result <= Of(o, d))
    && (started ==> (result == 0 <==> ok && UnwrittenHarmless(rows, cols, wrap, before)))
    && (!started ==> o == before && result == 0 && ok)
  }

  lemma TallyCell(rows: nat, cols: nat, wrap: bool, before: Outcome, o: Outcome, o': Outcome, result: int,
                  started: bool, ok: bool, row: nat, col: nat, cellOk: bool)
    requires Tally(rows, cols, wrap, before, o, result, started, ok) && (started || (row == 0 && col == 0))
    requires forall d :: Attempted(rows, cols, wrap, Link(row, col, d), o, o')
    requires cellOk <==> forall d :: Succeeded(rows, cols, wrap, Link(row, col, d), o')
    ensures Tally(rows, cols, wrap, before, o', Worst(result, o'), true, ok && cellOk)
  {
    hide Wanted;
    var w := Worst(result, o');
    assert w <= Of(o', Leftward) && w <= Of(o', Upward) && w <= Of(o', Rightward) && w <= Of(o', Downward);
    assert w == 0 <==> result == 0 && forall d :: Of(o', d) >= 0;
    assert forall d :: Attempted(rows, cols, wrap, Link(row, col, d), o, o');
    if w == 0 {
      forall d ensures Succeeded(rows, cols, wrap, Link(row, col, d), o') {
        assert Attempted(rows, cols, wrap, Link(row, col, d), o, o');
        assert Of(o', d) >= 0;
      }
      if !started {
        forall d | !Wanted(rows, cols, wrap, Link(0, 0, d)) ensures Of(before, d) >= 0 {
          assert Attempted(rows, cols, wrap, Link(0, 0, d), o, o');
        }
      }
    } else if ok && cellOk && UnwrittenHarmless(rows, cols, wrap, before) {
      forall d ensures Of(o', d) >= 0 {
        assert Attempted(rows, cols, wrap, Link(row, col, d), o, o')
            && Succeeded(rows, cols, wrap, Link(row, col, d), o');
      }
    }
  }

  /** Cores with nothing assigned get the default executable: one row, whose tasks begin at `start`. */
  method AssignRow(reg: Registry, start: nat, cols: nat)
    requires reg.Valid() && start + cols <= |reg.configured|
    modifies reg`configured
    ensures reg.Valid() && reg.Contents() == old(reg.Contents())
    ensures forall was :: |was| == |reg.configured| && old(reg.configured) == Populated(was, start) ==>
            reg.configured == Populated(was, start + cols)
  {
    hide Consistent;
    var col := 0;
    while col < cols
      invariant col <= cols && reg.Valid() && reg.Contents() == old(reg.Contents())
      invariant |reg.configured| == old(|reg.configured|)
      invariant forall t :: 0 <= t < |reg.configured| ==>
                reg.configured[t] == (old(reg.configured)[t] || start <= t < start + col)
    {
      if !reg.configured[start + col] {
        reg.Configure(start + col);
      }
      col := col + 1;
    }
  }

  method AssignExecutables(reg: Registry, rows: nat, cols: nat)
    requires reg.Valid() && rows * cols <= |reg.configured|
    modifies reg`configured
    ensures reg.Valid() && reg.Contents() == old(reg.Contents())
    ensures reg.configured == Populated(old(reg.configured), rows * cols)
  {
    hide Populated;
    StartPopulated(reg.configured);
    var row := 0;
    while row < rows
      invariant row <= rows && reg.Valid() && reg.Contents() == old(reg.Contents())
      invariant |reg.configured| == old(|reg.configured|)
      invariant reg.configured == Populated(old(reg.configured), row * cols)
    {
      RowInside(rows, cols, row);
      AssignRow(reg, row * cols, cols);
      row := row + 1;
    }
  }

  lemma StartPopulated(configured: seq<bool>)
    ensures Populated(configured, 0) == configured
  {
  }

  lemma RowInside(rows: nat, cols: nat, row: nat)
    requires row < rows
    ensures 0 <= row * cols && row * cols + cols == (row + 1) * cols <= rows * cols
  {
  }

  /** The connections attempted before this cell. */
  ghost function Sofar(rows: nat, cols: nat, wrap: bool, configured: seq<bool>, row: nat, col: nat): seq<Connection>
    requires rows > 0 && cols > 0
  {
    ConnectionsOf(rows, cols, configured, MeshLinks(rows, cols, wrap, row) + RowLinks(rows, cols, wrap, row, col))
  }

  lemma NextCell(rows: nat, cols: nat, wrap: bool, configured: seq<bool>, row: nat, col: nat)
    requires rows > 0 && cols > 0
    ensures Sofar(rows, cols, wrap, configured, row, col + 1)
            == Sofar(rows, cols, wrap, configured, row, col)
              + ConnectionsOf(rows, cols, configured, CellLinks(rows, cols, wrap, row, col))
  {
    hide CellLinks, ConnectionOf;
    var m, r, c := MeshLinks(rows, cols, wrap, row), RowLinks(rows, cols, wrap, row, col),
        CellLinks(rows, cols, wrap, row, col);
    assert m + RowLinks(rows, cols, wrap, row, col + 1) == (m + r) + c;
    ConnectionsOfParts(rows, cols, configured, m + r, c);
  }

  lemma NextRow(rows: nat, cols: nat, wrap: bool, configured: seq<bool>, row: nat)
    requires rows > 0 && cols > 0
    ensures Sofar(rows, cols, wrap, configured, row, cols) == Sofar(rows, cols, wrap, configured, row + 1, 0)
  {
    hide ConnectionsOf;
    assert MeshLinks(rows, cols, wrap, row + 1) + RowLinks(rows, cols, wrap, row + 1, 0)
           == MeshLinks(rows, cols, wrap, row) + RowLinks(rows, cols, wrap, row, cols);
  }

  /** The lists and the running result when the connections `cs` have been attempted. */
  ghost predicate Reached(l: Lists, now: Lists, configured: seq<bool>, cs: seq<Connection>, rows: nat, cols: nat,
                          wrap: bool,
                          before: Outcome, o: Outcome, result: int, started: bool)
  {
    && now == Requests(l, configured, cs)
    && Tally(rows, cols, wrap, before, o, result, started, AllAccepted(l, configured, cs))
  }

  lemma CellReached(l: Lists, now: Lists, now': Lists, configured: seq<bool>, rows: nat, cols: nat, wrap: bool,
                    before: Outcome,
                    o: Outcome, o': Outcome, result: int, row: nat, col: nat)
    requires rows > 0 && cols > 0
    requires Reached(l, now, configured, Sofar(rows, cols, wrap, configured, row, col), rows, cols, wrap, before, o,
             result, row > 0 || col > 0)
    requires CellDone(now, now', configured, rows, cols, wrap, row, col, o, o')
    ensures Reached(l, now', configured, Sofar(rows, cols, wrap, configured, row, col + 1), rows, cols, wrap, before,
            o', Worst(result, o'), true)
  {
    hide CellLinks, ConnectionsOf, Tally, Requests, AllAccepted, Attempted, Succeeded, Sofar, Worst;
    var cs, cell := Sofar(rows, cols, wrap, configured, row, col),
        ConnectionsOf(rows, cols, configured, CellLinks(rows, cols, wrap, row, col));
    NextCell(rows, cols, wrap, configured, row, col);
    RequestsAppend(l, configured, cs, cell);
    TallyCell(rows, cols, wrap, before, o, o', result, row > 0 || col > 0, AllAccepted(l, configured, cs), row, col,
              AllAccepted(now, configured, cell));
  }

  method ConnectMesh(reg: Registry, rows: nat, cols: nat, wrap: bool, before: Outcome) returns (result: int)
    requires reg.Valid() && rows > 0 && cols > 0
    modifies reg`masterAllocated, reg`master, reg`tables
    ensures reg.Valid()
    ensures reg.Contents()
            == Requests(old(reg.Contents()), reg.configured, MeshConnections(rows, cols, wrap, reg.configured))
    ensures result <= 0
    ensures result == X_SUCCESS <==>
            AllAccepted(old(reg.Contents()), reg.configured, MeshConnections(rows, cols, wrap, reg.configured))
            && UnwrittenHarmless(rows, cols, wrap, before)
  {
    hide Reached, Tally, CellDone, MeshConnections, UnwrittenHarmless, Requests, AllAccepted, Sofar, Worst;
    result := X_SUCCESS;
    var o := before;
    ghost var l, conf := reg.Contents(), reg.configured;
    StartReached(l, conf, rows, cols, wrap, before);
    var row := 0;
    while row < rows
      invariant row <= rows && reg.Valid() && reg.configured == conf
      invariant Reached(l, reg.Contents(), conf, Sofar(rows, cols, wrap, conf, row, 0), rows, cols, wrap, before, o,
                result, row > 0)
    {
      var col := 0;
      while col < cols
        invariant col <= cols && reg.Valid() && reg.configured == conf
        invariant Reached(l, reg.Contents(), conf, Sofar(rows, cols, wrap, conf, row, col), rows, cols, wrap, before,
                  o, result, row > 0 || col > 0)
      {
        ghost var now, was := reg.Contents(), o;
        o := ConnectCell(reg, rows, cols, wrap, row, col, o);
        CellReached(l, now, reg.Contents(), conf, rows, cols, wrap, before, was, o, result, row, col);
        result := Worst(result, o);
        col := col + 1;
      }
      NextRow(rows, cols, wrap, conf, row);
      row := row + 1;
    }
    EndReached(l, reg.Contents(), conf, rows, cols, wrap, before, o, result);
  }

  lemma StartReached(l: Lists, configured: seq<bool>, rows: nat, cols: nat, wrap: bool, before: Outcome)
    requires rows > 0 && cols > 0
    ensures Reached(l, l, configured, Sofar(rows, cols, wrap, configured, 0, 0), rows, cols, wrap, before, before,
            X_SUCCESS, false)
  {
    assert Sofar(rows, cols, wrap, configured, 0, 0) == [];
  }

  lemma EndReached(l: Lists, now: Lists, configured: seq<bool>, rows: nat, cols: nat, wrap: bool, before: Outcome,
                   o: Outcome, result: int)
    requires rows > 0 && cols > 0
    requires Reached(l, now, configured, Sofar(rows, cols, wrap, configured, rows, 0), rows, cols, wrap, before, o,
             result, true)
    ensures now == Requests(l, configured, MeshConnections(rows, cols, wrap, configured))
    ensures result <= 0
    ensures result == X_SUCCESS <==>
            AllAccepted(l, configured, MeshConnections(rows, cols, wrap, configured))
              && UnwrittenHarmless(rows, cols, wrap, before)
  {
    hide ConnectionsOf, Requests, AllAccepted, UnwrittenHarmless;
    assert MeshLinks(rows, cols, wrap, rows) + RowLinks(rows, cols, wrap, rows, 0) == MeshLinks(rows, cols, wrap, rows);
  }

  /** Preparing a mesh on an application that has no connections yet succeeds if and only if there are
      no more rows than columns and no variable read before it is written holds an error; it then
      leaves exactly the mesh's connections, in order. */
  method PrepareMesh(reg: Registry, rows: nat, cols: nat, wrap: bool, before: Outcome) returns (result: int)
    requires reg.Valid() && reg.Contents() == NoLists(|reg.configured|)
    requires 0 < rows < WORD / 2 && 0 < cols < WORD / 2 && rows * cols <= |reg.configured|
    modifies reg
    ensures reg.Valid() && reg.configured == Populated(old(reg.configured), rows * cols)
    ensures result == X_SUCCESS <==> rows <= cols && UnwrittenHarmless(rows, cols, wrap, before)
    ensures rows <= cols ==> reg.Contents().master == MeshConnections(rows, cols, wrap, reg.configured)
    ensures rows <= cols ==> |reg.Contents().master| == if wrap then 4 * (rows * cols)
            else 2 * (2 * (rows * cols) - rows - cols)
  {
    hide MeshConnections, Requests, AllAccepted, UnwrittenHarmless;
    AssignExecutables(reg, rows, cols);
    ghost var conf := reg.configured;
    MeshResults.MeshTheorem(rows, cols, wrap, conf);
    MeshSize(rows, cols, conf);
    if rows <= cols { MeshResults.MeshAccepted(rows, cols, wrap, conf); }
    result := ConnectMesh(reg, rows, cols, wrap, before);
  }
}
