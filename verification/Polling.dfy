/** The monitor on the host: it polls a rectangle of cores, serves their I/O traps, and stops when every
    core has come to a halt or something has gone wrong. */
module Polling {

  const REPOLL_COUNT := 5

  const WRITE_TRAP := 0
  const READ_TRAP := 1
  const OPEN_TRAP := 2
  const EXIT_TRAP := 3
  const CLOSE_TRAP := 6
  const SYSCALL_TRAP := 7

  /** Why a core has halted, if it has; `Failure` is an error in finding out. */
  datatype Exception = Running | Failure | Trap(number: int) | Software(cause: int)

  /** What one poll meets: the exception, whether serving it succeeds, and the exit status that can be
      read from the core (-1 if it cannot). */
  datatype Poll = Poll(exception: Exception, served: bool, status: int)

  /** A core of the rectangle, counted from its first row and column. */
  datatype Core = Core(row: nat, col: nat)

  datatype Visit = Visit(core: Core, poll: Poll)

  predicate Io(p: Poll) {
    p.exception.Trap? && p.exception.number in {SYSCALL_TRAP, WRITE_TRAP, READ_TRAP, OPEN_TRAP, CLOSE_TRAP}
  }

  predicate Halt(p: Poll) {
    !p.exception.Running? && !p.exception.Failure? && !Io(p)
  }

  predicate Bad(p: Poll) {
    p.exception.Failure? || (Io(p) && !p.served)
  }

  /** 0: poll the same core again; otherwise move on. */
  function Action(p: Poll): int {
    if Io(p) then (if p.served then 0 else -1) else 1
  }

  function StatusOf(p: Poll): int {
    match p.exception
    case Trap(n) => if n == EXIT_TRAP then p.status else n
    case Software(c) => c
    case _ => 0
  }

  // ----- grids

  type Grid<T> = seq<seq<T>>

  predicate Shape<T>(g: Grid<T>, rows: nat, cols: nat) {
    |g| == rows && forall r :: 0 <= r < rows ==> |g[r]| == cols
  }

  predicate Within(c: Core, rows: nat, cols: nat) {
    c.row < rows && c.col < cols
  }

  function Get<T>(g: Grid<T>, rows: nat, cols: nat, c: Core): T
    requires Shape(g, rows, cols) && Within(c, rows, cols)
  {
    g[c.row][c.col]
  }

  function Put<T>(g: Grid<T>, rows: nat, cols: nat, c: Core, v: T): (g': Grid<T>)
    requires Shape(g, rows, cols) && Within(c, rows, cols)
    ensures Shape(g', rows, cols)
  {
    g[c.row := g[c.row][c.col := v]]
  }

  lemma GetPut<T>(g: Grid<T>, rows: nat, cols: nat, c: Core, v: T, d: Core)
    requires Shape(g, rows, cols) && Within(c, rows, cols) && Within(d, rows, cols)
    ensures Get(Put(g, rows, cols, c, v), rows, cols, d) == if d == c then v else Get(g, rows, cols, d)
  {
  }

  function RowSum<T>(row: seq<T>, f: T -> nat): nat {
    if row == [] then 0 else RowSum(row[..|row| - 1], f) + f(row[|row| - 1])
  }

  function Sum<T>(g: Grid<T>, f: T -> nat): nat {
    if g == [] then 0 else Sum(g[..|g| - 1], f) + RowSum(g[|g| - 1], f)
  }

  lemma {:induction false} RowSumUpdate<T>(row: seq<T>, f: T -> nat, i: nat, v: T)
    requires i < |row|
    ensures RowSum(row[i := v], f) == RowSum(row, f) - f(row[i]) + f(v)
    decreases |row|
  {
    var n := |row| - 1;
    if i == n {
      assert row[i := v][..n] == row[..n];
    } else {
      assert row[i := v][..n] == row[..n][i := v];
      RowSumUpdate(row[..n], f, i, v);
    }
  }

  lemma {:induction false} SumUpdate<T>(g: Grid<T>, f: T -> nat, r: nat, row: seq<T>)
    requires r < |g|
    ensures Sum(g[r := row], f) == Sum(g, f) - RowSum(g[r], f) + RowSum(row, f)
    decreases |g|
  {
    var n := |g| - 1;
    if r == n {
      assert g[r := row][..n] == g[..n];
    } else {
      assert g[r := row][..n] == g[..n][r := row];
      SumUpdate(g[..n], f, r, row);
    }
  }

  lemma SumPut<T>(g: Grid<T>, rows: nat, cols: nat, c: Core, v: T, f: T -> nat)
    requires Shape(g, rows, cols) && Within(c, rows, cols)
    ensures Sum(Put(g, rows, cols, c, v), f) == Sum(g, f) - f(Get(g, rows, cols, c)) + f(v)
  {
    SumUpdate(g, f, c.row, g[c.row][c.col := v]);
    RowSumUpdate(g[c.row], f, c.col, v);
  }

  function One(b: bool): nat { if b then 1 else 0 }

  function Count(g: Grid<bool>): nat {
    Sum(g, One)
  }

  predicate All(g: Grid<bool>) {
    forall r, c :: 0 <= r < |g| && 0 <= c < |g[r]| ==> g[r][c]
  }

  lemma {:induction false} RowFull(row: seq<bool>)
    ensures RowSum(row, One) <= |row|
    ensures RowSum(row, One) == |row| <==> forall i :: 0 <= i < |row| ==> row[i]
    decreases |row|
  {
    if row != [] { RowFull(row[..|row| - 1]); }
  }

  /** Every flag of the rectangle is set exactly when the count is the number of cores. */
  lemma {:induction false} CountFull(g: Grid<bool>, rows: nat, cols: nat, cells: nat)
    requires Shape(g, rows, cols) && cells == rows * cols
    ensures Count(g) <= cells && (Count(g) == cells <==> All(g))
    decreases rows
  {
    if rows > 0 {
      var n := rows - 1;
      assert cells == n * cols + cols;
      CountFull(g[..n], n, cols, n * cols);
      RowFull(g[n]);
      assert All(g) <==> All(g[..n]) && forall i :: 0 <= i < |g[n]| ==> g[n][i];
    }
  }

  // ----- the monitor's state and what one poll does to it

  datatype Monitor = Monitor(trapped: Grid<bool>, status: Grid<int>, exited: int, polling: bool, result: int)

  predicate Sized(m: Monitor, rows: nat, cols: nat) {
    Shape(m.trapped, rows, cols) && Shape(m.status, rows, cols)
  }

  function Fresh<T>(rows: nat, cols: nat, v: T): (g: Grid<T>)
    ensures Shape(g, rows, cols)
  {
    seq(rows, _ => seq(cols, _ => v))
  }

  function Start(rows: nat, cols: nat): Monitor {
    Monitor(Fresh(rows, cols, false), Fresh(rows, cols, 0), 0, true, 0)
  }

  function Observe(m: Monitor, rows: nat, cols: nat, v: Visit): (m': Monitor)
    requires Sized(m, rows, cols) && Within(v.core, rows, cols)
    ensures Sized(m', rows, cols)
  {
    var c, p := v.core, v.poll;
    if p.exception.Running? then m
    else if Bad(p) then m.(polling := false, result := -1)
    else if Io(p) then
      if !Get(m.trapped, rows, cols, c) then m
      else m.(trapped := Put(m.trapped, rows, cols, c, false), exited := m.exited - 1)
    else if Get(m.trapped, rows, cols, c) then m
    else
      var last := m.exited + 1 == rows * cols;
      Monitor(Put(m.trapped, rows, cols, c, true), Put(m.status, rows, cols, c, StatusOf(p)), m.exited + 1,
              m.polling && !last, if last then 0 else m.result)
  }

  predicate Visits(log: seq<Visit>, rows: nat, cols: nat) {
    forall i :: 0 <= i < |log| ==> Within(log[i].core, rows, cols)
  }

  function ObserveAll(rows: nat, cols: nat, log: seq<Visit>): (m: Monitor)
    requires Visits(log, rows, cols)
    ensures Sized(m, rows, cols)
    decreases |log|
  {
    if log == [] then Start(rows, cols)
    else Observe(ObserveAll(rows, cols, log[..|log| - 1]), rows, cols, log[|log| - 1])
  }

  /** Polling goes on until a poll ends it. */
  predicate Continues(rows: nat, cols: nat, log: seq<Visit>)
    requires Visits(log, rows, cols)
    decreases |log|
  {
    log == [] || (Continues(rows, cols, log[..|log| - 1]) && ObserveAll(rows, cols, log[..|log| - 1]).polling)
  }

  predicate Inv(m: Monitor, rows: nat, cols: nat) {
    && Sized(m, rows, cols)
    && m.exited == Count(m.trapped)
    && (m.result == 0 || m.result == -1)
    && (m.polling ==> m.result == 0 && !All(m.trapped))
    && (!m.polling ==> (m.result == 0 <==> All(m.trapped)))
  }

  // ----- any sequence of polls

  lemma {:induction false} FreshRow(n: nat)
    ensures RowSum(seq(n, _ => false), One) == 0
  {
    if n > 0 {
      assert seq(n, _ => false)[..n - 1] == seq(n - 1, _ => false);
      FreshRow(n - 1);
    }
  }

  lemma {:induction false} NoneSet(rows: nat, cols: nat)
    ensures Count(Fresh(rows, cols, false)) == 0
  {
    if rows > 0 {
      var g := Fresh(rows, cols, false);
      assert g[..rows - 1] == Fresh(rows - 1, cols, false);
      NoneSet(rows - 1, cols);
      FreshRow(cols);
    }
  }

  lemma ObserveKeepsInv(m: Monitor, rows: nat, cols: nat, v: Visit)
    requires Inv(m, rows, cols) && m.polling && Within(v.core, rows, cols)
    ensures Inv(Observe(m, rows, cols, v), rows, cols)
  {
    var m' := Observe(m, rows, cols, v);
    CountFull(m.trapped, rows, cols, rows * cols);
    CountFull(m'.trapped, rows, cols, rows * cols);
    SumPut(m.trapped, rows, cols, v.core, true, One);
    SumPut(m.trapped, rows, cols, v.core, false, One);
  }

  /** After any polls of a non-empty rectangle, through exits and revivals: the number of exited cores
      is the number of flags that are set; polling continues only while some flag is clear, and ends
      with result 0 if and only if all are set. */
  lemma {:induction false} PollingTheorem(rows: nat, cols: nat, log: seq<Visit>)
    requires rows > 0 && cols > 0 && Visits(log, rows, cols) && Continues(rows, cols, log)
    ensures Inv(ObserveAll(rows, cols, log), rows, cols)
    decreases |log|
  {
    if log == [] {
      NoneSet(rows, cols);
      assert !Start(rows, cols).trapped[0][0];
    } else {
      PollingTheorem(rows, cols, log[..|log| - 1]);
      ObserveKeepsInv(ObserveAll(rows, cols, log[..|log| - 1]), rows, cols, log[|log| - 1]);
    }
  }

  /** The polls of one core. */
  function Seen(log: seq<Visit>, c: Core): seq<Poll>
    decreases |log|
  {
    if log == [] then []
    else
      var init, v := log[..|log| - 1], log[|log| - 1];
      if v.core == c then Seen(init, c) + [v.poll] else Seen(init, c)
  }

  /** Halted, and no sign of life since. */
  predicate AtHalt(seen: seq<Poll>)
    decreases |seen|
  {
    if seen == [] then false
    else
      var p := seen[|seen| - 1];
      if Halt(p) then true else if Io(p) && p.served then false else AtHalt(seen[..|seen| - 1])
  }

  /** A software exception, or a trap that asks for no I/O: neither 0 (write), 1 (read), 2 (open),
      6 (close) nor 7 (system call). */
  predicate Halts(p: Poll) {
    p.exception.Software? || (p.exception.Trap? && p.exception.number !in {0, 1, 2, 6, 7})
  }

  /** A trap that asks for I/O, and got it. */
  predicate Lives(p: Poll) {
    p.exception.Trap? && p.exception.number in {0, 1, 2, 6, 7} && p.served
  }

  /** The core came to a halt at some poll and has not shown any life since. */
  predicate CameToHalt(seen: seq<Poll>) {
    exists i :: 0 <= i < |seen| && Halts(seen[i]) && forall j :: i < j < |seen| ==> !Lives(seen[j])
  }

  lemma {:induction false} AtHaltExact(seen: seq<Poll>)
    ensures AtHalt(seen) <==> CameToHalt(seen)
    decreases |seen|
  {
    if seen != [] {
      var n := |seen| - 1;
      var init, p := seen[..n], seen[n];
      AtHaltExact(init);
      if !Halts(p) && !Lives(p) {
        if CameToHalt(init) {
          var i :| 0 <= i < n && Halts(init[i]) && forall j :: i < j < n ==> !Lives(init[j]);
          assert Halts(seen[i]);
        }
        if i :| 0 <= i < |seen| && Halts(seen[i]) && forall j :: i < j < |seen| ==> !Lives(seen[j]) {
          assert Halts(init[i]);
        }
      }
    }
  }

  /** A core's flag says exactly that it has come to a halt, without a sign of life since. */
  lemma FlagsExact(rows: nat, cols: nat, log: seq<Visit>, c: Core)
    requires Visits(log, rows, cols) && Within(c, rows, cols)
    ensures Get(ObserveAll(rows, cols, log).trapped, rows, cols, c) <==> CameToHalt(Seen(log, c))
  {
    FlagsFollow(rows, cols, log, c);
    AtHaltExact(Seen(log, c));
  }

  lemma {:induction false} FlagsFollow(rows: nat, cols: nat, log: seq<Visit>, c: Core)
    requires Visits(log, rows, cols) && Within(c, rows, cols)
    ensures Get(ObserveAll(rows, cols, log).trapped, rows, cols, c) <==> AtHalt(Seen(log, c))
    decreases |log|
  {
    if log != [] {
      var init, v := log[..|log| - 1], log[|log| - 1];
      FlagsFollow(rows, cols, init, c);
      var m := ObserveAll(rows, cols, init);
      GetPut(m.trapped, rows, cols, v.core, true, c);
      GetPut(m.trapped, rows, cols, v.core, false, c);
      if v.core == c { assert Seen(log, c)[..|Seen(log, c)| - 1] == Seen(init, c); }
    }
  }

  /** The core came to a halt at this poll, and has not shown any life since. */
  predicate FirstHalt(seen: seq<Poll>, i: nat) {
    && i < |seen| && Halts(seen[i]) && !CameToHalt(seen[..i])
    && forall j :: i < j < |seen| ==> !Lives(seen[j])
  }

  /** What is to be kept of a halt: of an exit (trap 3) the program's exit status, of any other trap its
      number, of a software exception its cause. */
  predicate Records(p: Poll, status: int) {
    && (p.exception.Trap? && p.exception.number == 3 ==> status == p.status)
    && (p.exception.Trap? && p.exception.number != 3 ==> status == p.exception.number)
    && (p.exception.Software? ==> status == p.exception.cause)
  }

  predicate KeptFrom(seen: seq<Poll>, status: int) {
    exists i :: 0 <= i < |seen| && FirstHalt(seen, i) && Records(seen[i], status)
  }

  lemma KeptNext(seen: seq<Poll>, status: int, p: Poll)
    requires KeptFrom(seen, status) && !(Io(p) && p.served)
    ensures KeptFrom(seen + [p], status)
  {
    var i :| 0 <= i < |seen| && FirstHalt(seen, i) && Records(seen[i], status);
    assert (seen + [p])[..i] == seen[..i];
    assert FirstHalt(seen + [p], i);
  }

  lemma KeptFirst(seen: seq<Poll>, p: Poll)
    requires Halt(p) && !AtHalt(seen)
    ensures KeptFrom(seen + [p], StatusOf(p))
  {
    AtHaltExact(seen);
    assert (seen + [p])[..|seen|] == seen;
    assert FirstHalt(seen + [p], |seen|);
  }

  /** The status kept for a core whose flag is set is that of the first halt since it last showed life;
      what it was at other halts before or after makes no difference. A core that never halted has 0. */
  lemma {:induction false} StatusExact(rows: nat, cols: nat, log: seq<Visit>, c: Core)
    requires Visits(log, rows, cols) && Within(c, rows, cols)
    ensures var m, seen := ObserveAll(rows, cols, log), Seen(log, c);
            Get(m.trapped, rows, cols, c) ==> KeptFrom(seen, Get(m.status, rows, cols, c))
    ensures (forall p :: p in Seen(log, c) ==> !Halts(p)) ==>
              Get(ObserveAll(rows, cols, log).status, rows, cols, c) == 0
    decreases |log|
  {
    if log != [] {
      var init, v := log[..|log| - 1], log[|log| - 1];
      var m, m', was := ObserveAll(rows, cols, init), ObserveAll(rows, cols, log), Seen(init, c);
      hide AtHalt, KeptFrom, Count;
      StatusExact(rows, cols, init, c);
      FlagsFollow(rows, cols, init, c);
      GetPut(m.trapped, rows, cols, v.core, true, c);
      GetPut(m.trapped, rows, cols, v.core, false, c);
      GetPut(m.status, rows, cols, v.core, StatusOf(v.poll), c);
      if Get(m'.trapped, rows, cols, c) && v.core == c {
        if Get(m.trapped, rows, cols, c) {
          KeptNext(was, Get(m.status, rows, cols, c), v.poll);
        } else {
          KeptFirst(was, v.poll);
        }
      }
    }
  }

  predicate Wrong(p: Poll) {
    p.exception.Failure? || (p.exception.Trap? && p.exception.number in {0, 1, 2, 6, 7} && !p.served)
  }

  /** The result is -1 exactly when the last poll went wrong: its exception could not be read, or the I/O
      that a trap asked for failed. */
  lemma {:induction false} FailureExact(rows: nat, cols: nat, log: seq<Visit>)
    requires Visits(log, rows, cols) && Continues(rows, cols, log)
    ensures ObserveAll(rows, cols, log).result == -1 <==> log != [] && Wrong(log[|log| - 1].poll)
    ensures forall i :: 0 <= i < |log| - 1 ==> !Wrong(log[i].poll)
    ensures ObserveAll(rows, cols, log).result != -1 ==> ObserveAll(rows, cols, log).result == 0
    ensures ObserveAll(rows, cols, log).polling ==> ObserveAll(rows, cols, log).result == 0
    decreases |log|
  {
    if log != [] {
      var init := log[..|log| - 1];
      FailureExact(rows, cols, init);
      forall i | 0 <= i < |log| - 1 ensures !Wrong(log[i].poll) {
        if i == |init| - 1 { assert log[i] == init[|init| - 1]; } else { assert log[i] == init[i]; }
      }
    }
  }
}
