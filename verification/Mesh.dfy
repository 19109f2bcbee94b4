/** Connecting the workgroup as a mesh or torus. */
module Mesh {
  import opened Connections
  import opened Words

  const WORD: nat := 0x1_0000_0000
  const NULL_TASK := -1

  const FROM_LEFT := 0x1000_0000
  const TO_LEFT := 0x2000_0000
  const FROM_RIGHT := 0x3000_0000
  const TO_RIGHT := 0x4000_0000
  const FROM_ABOVE := 0x5000_0000
  const TO_ABOVE := 0x6000_0000
  const FROM_BELOW := 0x7000_0000
  const TO_BELOW := -0x8000_0000   // 0x80000000 as a signed key

  datatype Direction = Leftward | Upward | Rightward | Downward

  function SendKey(d: Direction): int {
    match d
    case Leftward => TO_LEFT
    case Upward => TO_ABOVE
    case Rightward => TO_RIGHT
    case Downward => TO_BELOW
  }

  function ReceiveKey(d: Direction): int {
    match d
    case Leftward => FROM_RIGHT
    case Upward => FROM_BELOW
    case Rightward => FROM_LEFT
    case Downward => FROM_ABOVE
  }

  /** One cell's connection towards a neighbour. */
  datatype Link = Link(row: nat, col: nat, dir: Direction)

  // ----- tasks by coordinates

  /** The task at these coordinates. The row is tested against the number of columns. */
  function MemberTask(cols: nat, configured: seq<bool>, row: int, col: int): int {
    if col < 0 || col >= cols then NULL_TASK
    else if row < 0 || row >= cols then NULL_TASK
    else if Configured(configured, row * cols + col) then row * cols + col else NULL_TASK
  }

  /** There is a task exactly if both coordinates are at least 0 and less than the number of columns, the
      row too, and the place is configured; otherwise the result is -1. */
  lemma MemberTaskExact(cols: nat, configured: seq<bool>, row: int, col: int)
    ensures var found := 0 <= row < cols && 0 <= col < cols && Configured(configured, row * cols + col);
            MemberTask(cols, configured, row, col) == if found then row * cols + col else -1
  {
  }

  /** Coordinates one step outside are brought back by unsigned arithmetic. */
  function Wrapped(x: int, n: nat): int
    requires n > 0
  {
    (x + n) % WORD % n
  }

  lemma WrappedStep(x: int, n: nat)
    requires 0 < n < WORD / 2 && -1 <= x <= n
    ensures Wrapped(x, n) == if x < 0 then n - 1 else if x == n then 0 else x
  {
    assert (x + n) % WORD == x + n;
    if x < 0 { ModUnique(x + n, 0, n - 1, n); }
    else if x == n { ModUnique(x + n, 2, 0, n); }
    else { ModUnique(x + n, 1, x, n); }
  }

  function ByCoords(rows: nat, cols: nat, configured: seq<bool>, sr: int, sc: int, skey: int, rr: int, rc: int,
                    rkey: int): Connection
    requires rows > 0 && cols > 0
  {
    Connection(MemberTask(cols, configured, Wrapped(sr, rows), Wrapped(sc, cols)), skey,
               MemberTask(cols, configured, Wrapped(rr, rows), Wrapped(rc, cols)), rkey)
  }

  method ConnectByWorkgroupCoords(reg: Registry, rows: nat, cols: nat, sr: int, sc: int, skey: int, rr: int, rc: int,
                                  rkey: int)
    returns (result: int)
    requires reg.Valid() && rows > 0 && cols > 0
    modifies reg`masterAllocated, reg`master, reg`tables
    ensures reg.Valid()
    ensures (reg.Contents(), result == X_SUCCESS)
            == Request(old(reg.Contents()), reg.configured,
              ByCoords(rows, cols, reg.configured, sr, sc, skey, rr, rc, rkey))
    ensures result == X_SUCCESS || result == X_ERROR
  {
    var sender := MemberTask(cols, reg.configured, Wrapped(sr, rows), Wrapped(sc, cols));
    var receiver := MemberTask(cols, reg.configured, Wrapped(rr, rows), Wrapped(rc, cols));
    result := reg.ConnectByTaskId(sender, skey, receiver, rkey);
  }

  // ----- the connections the builder asks for

  /** Where a link leads, before wrapping. */
  function TargetRow(k: Link): int {
    if k.dir.Upward? then k.row - 1 else if k.dir.Downward? then k.row + 1 else k.row
  }

  function TargetCol(k: Link): int {
    if k.dir.Leftward? then k.col - 1 else if k.dir.Rightward? then k.col + 1 else k.col
  }

  /** Inside the workgroup, or round its edge if the mesh wraps around. */
  predicate Wanted(rows: nat, cols: nat, wrap: bool, k: Link) {
    k.row < rows && k.col < cols && (wrap || (0 <= TargetRow(k) < rows && 0 <= TargetCol(k) < cols))
  }

  function ConnectionOf(rows: nat, cols: nat, configured: seq<bool>, k: Link): Connection
    requires rows > 0 && cols > 0
  {
    ByCoords(rows, cols, configured, k.row, k.col, SendKey(k.dir), TargetRow(k), TargetCol(k), ReceiveKey(k.dir))
  }

  function ConnectionsOf(rows: nat, cols: nat, configured: seq<bool>, ks: seq<Link>): seq<Connection>
    requires ks == [] || (rows > 0 && cols > 0)
  {
    seq(|ks|, i requires 0 <= i < |ks| => ConnectionOf(rows, cols, configured, ks[i]))
  }

  function IfWanted(rows: nat, cols: nat, wrap: bool, k: Link): seq<Link> {
    if Wanted(rows, cols, wrap, k) then [k] else []
  }

  function CellLinks(rows: nat, cols: nat, wrap: bool, row: nat, col: nat): seq<Link> {
    IfWanted(rows, cols, wrap, Link(row, col, Leftward)) + IfWanted(rows, cols, wrap, Link(row, col, Upward))
    + IfWanted(rows, cols, wrap, Link(row, col, Rightward)) + IfWanted(rows, cols, wrap, Link(row, col, Downward))
  }

  /** The links of the first `n` cells of a row. */
  function RowLinks(rows: nat, cols: nat, wrap: bool, row: nat, n: nat): seq<Link> {
    if n == 0 then [] else RowLinks(rows, cols, wrap, row, n - 1) + CellLinks(rows, cols, wrap, row, n - 1)
  }

  /** The links of the first `n` rows. */
  function MeshLinks(rows: nat, cols: nat, wrap: bool, n: nat): seq<Link> {
    if n == 0 then [] else MeshLinks(rows, cols, wrap, n - 1) + RowLinks(rows, cols, wrap, n - 1, cols)
  }

  function MeshConnections(rows: nat, cols: nat, wrap: bool, configured: seq<bool>): seq<Connection> {
    if rows == 0 || cols == 0 then []
    else ConnectionsOf(rows, cols, configured, MeshLinks(rows, cols, wrap, rows))
  }

  /** After the builder's first loop: every core of the workgroup has an executable. */
  function Populated(configured: seq<bool>, cells: nat): seq<bool> {
    seq(|configured|, t requires 0 <= t < |configured| => t < cells || configured[t])
  }

  predicate WorkgroupConfigured(configured: seq<bool>, rows: nat, cols: nat) {
    rows * cols <= |configured| && forall t :: 0 <= t < rows * cols ==> configured[t]
  }

  // ----- which links there are

  lemma CellLinksExact(rows: nat, cols: nat, wrap: bool, row: nat, col: nat, k: Link)
    requires row < rows && col < cols
    ensures k in CellLinks(rows, cols, wrap, row, col) <==> Wanted(rows, cols, wrap, k) && k.row == row && k.col == col
  {
  }

  lemma {:induction false} RowLinksExact(rows: nat, cols: nat, wrap: bool, row: nat, n: nat, k: Link)
    requires n <= cols && row < rows
    ensures k in RowLinks(rows, cols, wrap, row, n) <==> Wanted(rows, cols, wrap, k) && k.row == row && k.col < n
  {
    hide Wanted, CellLinks;
    if n > 0 {
      RowLinksExact(rows, cols, wrap, row, n - 1, k);
      CellLinksExact(rows, cols, wrap, row, n - 1, k);
    }
  }

  lemma {:induction false} MeshLinksExact(rows: nat, cols: nat, wrap: bool, n: nat, k: Link)
    requires n <= rows
    ensures k in MeshLinks(rows, cols, wrap, n) <==> Wanted(rows, cols, wrap, k) && k.row < n
  {
    if n > 0 {
      MeshLinksExact(rows, cols, wrap, n - 1, k);
      RowLinksExact(rows, cols, wrap, n - 1, cols, k);
    }
  }

  predicate Distinct<T(==)>(s: seq<T>) {
    forall i, j :: 0 <= i < j < |s| ==> s[i] != s[j]
  }

  lemma DistinctAppend<T>(s: seq<T>, t: seq<T>)
    requires Distinct(s) && Distinct(t) && forall x :: x in s ==> x !in t
    ensures Distinct(s + t)
  {
    forall i, j | 0 <= i < j < |s + t| ensures (s + t)[i] != (s + t)[j] {
      if i < |s| <= j { assert s[i] in s && t[j - |s|] in t; }
    }
  }

  lemma CellLinksDistinct(rows: nat, cols: nat, wrap: bool, row: nat, col: nat)
    ensures Distinct(CellLinks(rows, cols, wrap, row, col))
    ensures forall k :: k in CellLinks(rows, cols, wrap, row, col) ==> k.row == row && k.col == col
  {
  }

  lemma {:induction false} RowLinksDistinct(rows: nat, cols: nat, wrap: bool, row: nat, n: nat)
    requires n <= cols && row < rows
    ensures Distinct(RowLinks(rows, cols, wrap, row, n))
  {
    hide CellLinks, Wanted;
    if n > 0 {
      RowLinksDistinct(rows, cols, wrap, row, n - 1);
      var before, cell := RowLinks(rows, cols, wrap, row, n - 1), CellLinks(rows, cols, wrap, row, n - 1);
      CellLinksDistinct(rows, cols, wrap, row, n - 1);
      forall k | k in before ensures k !in cell { RowLinksExact(rows, cols, wrap, row, n - 1, k); }
      DistinctAppend(before, cell);
    }
  }

  lemma {:induction false} MeshLinksDistinct(rows: nat, cols: nat, wrap: bool, n: nat)
    requires n <= rows
    ensures Distinct(MeshLinks(rows, cols, wrap, n))
  {
    hide RowLinks, Wanted;
    if n > 0 {
      MeshLinksDistinct(rows, cols, wrap, n - 1);
      RowLinksDistinct(rows, cols, wrap, n - 1, cols);
      var before, row := MeshLinks(rows, cols, wrap, n - 1), RowLinks(rows, cols, wrap, n - 1, cols);
      forall k | k in before ensures k !in row {
        MeshLinksExact(rows, cols, wrap, n - 1, k);
        RowLinksExact(rows, cols, wrap, n - 1, cols, k);
      }
      DistinctAppend(before, row);
    }
  }

  // ----- how many

  function One(b: bool): nat { if b then 1 else 0 }

  lemma CellCount(rows: nat, cols: nat, wrap: bool, row: nat, col: nat)
    requires row < rows && col < cols
    ensures |CellLinks(rows, cols, wrap, row, col)|
            == if wrap then 4 else One(col > 0) + One(row > 0) + One(col + 1 < cols) + One(row + 1 < rows)
  {
  }

  lemma {:induction false} TorusRowCount(rows: nat, cols: nat, row: nat, n: nat)
    requires n <= cols && row < rows
    ensures |RowLinks(rows, cols, true, row, n)| == 4 * n
  {
    hide CellLinks;
    if n > 0 {
      TorusRowCount(rows, cols, row, n - 1);
      CellCount(rows, cols, true, row, n - 1);
    }
  }

  lemma {:induction false} TorusCount(rows: nat, cols: nat, n: nat, cells: nat)
    requires n <= rows && cells == n * cols
    ensures |MeshLinks(rows, cols, true, n)| == 4 * cells
  {
    hide RowLinks;
    if n > 0 {
      var fewer := (n - 1) * cols;
      assert cells == fewer + cols;
      TorusCount(rows, cols, n - 1, fewer);
      TorusRowCount(rows, cols, n - 1, cols);
    }
  }

  lemma {:induction false} OpenRowCount(rows: nat, cols: nat, row: nat, n: nat)
    requires n <= cols && row < rows
    ensures |RowLinks(rows, cols, false, row, n)|
            == 2 * n - One(n > 0) - One(n > 0 && n == cols) + (if row > 0 then n else 0)
              + (if row + 1 < rows then n else 0)
  {
    hide CellLinks;
    if n > 0 {
      OpenRowCount(rows, cols, row, n - 1);
      CellCount(rows, cols, false, row, n - 1);
    }
  }

  lemma {:induction false} OpenCount(rows: nat, cols: nat, n: nat, cells: nat)
    requires 0 < n <= rows && cols > 0 && cells == n * cols
    ensures |MeshLinks(rows, cols, false, n)|
            == 2 * (2 * cells - n - cols) + (if n < rows then cols else 0)
  {
    hide RowLinks;
    OpenRowCount(rows, cols, n - 1, cols);
    if n > 1 {
      var fewer := (n - 1) * cols;
      assert cells == fewer + cols;
      OpenCount(rows, cols, n - 1, fewer);
    } else {
      assert MeshLinks(rows, cols, false, 0) == [];
    }
  }

  lemma MeshSize(rows: nat, cols: nat, configured: seq<bool>)
    requires rows > 0 && cols > 0
    ensures |MeshConnections(rows, cols, true, configured)| == 4 * (rows * cols)
    ensures |MeshConnections(rows, cols, false, configured)| == 2 * (2 * (rows * cols) - rows - cols)
  {
    hide MeshLinks, ConnectionOf;
    TorusCount(rows, cols, rows, rows * cols);
    OpenCount(rows, cols, rows, rows * cols);
  }
}
