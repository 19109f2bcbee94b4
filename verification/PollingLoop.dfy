/** The polling loops, against cores that follow finite scripts and then stay at a halt. */
module PollingLoop {
  import opened Polling

  /** What polls of a core will meet: some events one after another, and a halt from then on. */
  datatype Script = Script(events: seq<Poll>, final: Poll)

  function Next(script: Script): Poll {
    if script.events == [] then script.final else script.events[0]
  }

  function Rest(script: Script): Script {
    if script.events == [] then script else script.(events := script.events[1..])
  }

  /** The polls of a core so far are the beginning of its script, or all of it and then its last halt. */
  predicate Faithful(script: Script, left: Script, seen: seq<Poll>) {
    && Halt(script.final) && left.final == script.final
    && if left.events != [] then seen + left.events == script.events
       else script.events <= seen && forall i :: |script.events| <= i < |seen| ==> seen[i] == script.final
  }

  lemma FaithfulNext(script: Script, left: Script, seen: seq<Poll>)
    requires Faithful(script, left, seen)
    ensures Faithful(script, Rest(left), seen + [Next(left)])
  {
    var seen' := seen + [Next(left)];
    if left.events != [] {
      assert left.events == [left.events[0]] + left.events[1..];
      assert seen' + Rest(left).events == seen + left.events;
      if Rest(left).events == [] { assert seen' == script.events; }
    }
  }

  function Length(script: Script): nat { |script.events| }

  /** Which core is polled next. */
  function After(v: Visit, rows: nat, cols: nat): Core {
    if Action(v.poll) == 0 then v.core
    else if v.core.col + 1 < cols then Core(v.core.row, v.core.col + 1)
    else if v.core.row + 1 < rows then Core(v.core.row + 1, 0)
    else Core(0, 0)
  }

  /** Row by row from the first core, except that a core that was served is polled again at once. */
  predicate InOrder(log: seq<Visit>, rows: nat, cols: nat) {
    && (log != [] ==> log[0].core == Core(0, 0))
    && forall i :: 0 <= i < |log| - 1 ==> log[i + 1].core == After(log[i], rows, cols)
  }

  /** Loop variables naming the core about to be polled; past the end of a row, the next one. */
  predicate Upcoming(log: seq<Visit>, rows: nat, cols: nat, row: nat, col: nat) {
    var c := if log == [] then Core(0, 0) else After(log[|log| - 1], rows, cols);
    if col < cols && row < rows then c == Core(row, col)
    else if row + 1 < rows then c == Core(row + 1, 0)
    else c == Core(0, 0)
  }

  predicate AllFaithful(scripts: Grid<Script>, left: Grid<Script>, rows: nat, cols: nat, log: seq<Visit>)
  {
    && Shape(scripts, rows, cols) && Shape(left, rows, cols)
    && forall r, c :: 0 <= r < rows && 0 <= c < cols ==> Faithful(scripts[r][c], left[r][c], Seen(log, Core(r, c)))
  }

  lemma FaithfulStep(scripts: Grid<Script>, left: Grid<Script>, rows: nat, cols: nat, log: seq<Visit>, c: Core)
    requires AllFaithful(scripts, left, rows, cols, log) && Within(c, rows, cols)
    ensures var now := Get(left, rows, cols, c);
            AllFaithful(scripts, Put(left, rows, cols, c, Rest(now)), rows, cols, log + [Visit(c, Next(now))])
  {
    hide Faithful;
    var now := Get(left, rows, cols, c);
    var left', log' := Put(left, rows, cols, c, Rest(now)), log + [Visit(c, Next(now))];
    assert log'[..|log'| - 1] == log;
    forall r, k | 0 <= r < rows && 0 <= k < cols ensures Faithful(scripts[r][k], left'[r][k], Seen(log', Core(r, k))) {
      if Core(r, k) == c { FaithfulNext(scripts[r][k], left[r][k], Seen(log, c)); }
    }
  }

  lemma OrderStep(log: seq<Visit>, rows: nat, cols: nat, row: nat, col: nat, p: Poll)
    requires InOrder(log, rows, cols) && Upcoming(log, rows, cols, row, col) && row < rows && col < cols
    ensures InOrder(log + [Visit(Core(row, col), p)], rows, cols)
    ensures Upcoming(log + [Visit(Core(row, col), p)], rows, cols, row, if Action(p) == 0 then col else col + 1)
  {
  }

  /** The log and the state after it. */
  predicate Reached(scripts: Grid<Script>, left: Grid<Script>, rows: nat, cols: nat, log: seq<Visit>, m: Monitor) {
    && AllFaithful(scripts, left, rows, cols, log)
    && InOrder(log, rows, cols) && Visits(log, rows, cols) && Continues(rows, cols, log)
    && m == ObserveAll(rows, cols, log)
  }

  lemma StepReached(scripts: Grid<Script>, left: Grid<Script>, rows: nat, cols: nat, log: seq<Visit>, m: Monitor,
                    row: nat, col: nat)
    requires rows > 0 && cols > 0 && Reached(scripts, left, rows, cols, log, m) && m.polling
    requires row < rows && col < cols && Upcoming(log, rows, cols, row, col)
    ensures var c := Core(row, col);
            var now := Get(left, rows, cols, c);
            var left', v := Put(left, rows, cols, c, Rest(now)), Visit(c, Next(now));
            && Reached(scripts, left', rows, cols, log + [v], Observe(m, rows, cols, v))
            && Upcoming(log + [v], rows, cols, row, if Action(v.poll) == 0 then col else col + 1)
            && Sum(left', Length) == Sum(left, Length) - (if now.events == [] then 0 else 1)
            && (now.events == [] ==> Halt(v.poll))
  {
    hide AllFaithful, Upcoming, InOrder, Observe, Sum;
    var c := Core(row, col);
    FaithfulShape(scripts, left, rows, cols, log);
    var now := Get(left, rows, cols, c);
    var v := Visit(c, Next(now));
    assert (log + [v])[..|log + [v]| - 1] == log;
    FaithfulStep(scripts, left, rows, cols, log, c);
    OrderStep(log, rows, cols, row, col, v.poll);
    SumPut(left, rows, cols, c, Rest(now), Length);
  }

  lemma FaithfulShape(scripts: Grid<Script>, left: Grid<Script>, rows: nat, cols: nat, log: seq<Visit>)
    requires AllFaithful(scripts, left, rows, cols, log)
    ensures Shape(left, rows, cols)
    ensures forall r, c :: 0 <= r < rows && 0 <= c < cols ==> Halt(left[r][c].final)
  {
    forall r, c | 0 <= r < rows && 0 <= c < cols ensures Halt(left[r][c].final) {
      assert Faithful(scripts[r][c], left[r][c], Seen(log, Core(r, c)));
    }
  }

  // ----- the pause after each sweep

  /** The countdown after sweeps of which `ios` tells whether they met an I/O trap. */
  function CountdownOf(ios: seq<bool>): nat
    decreases |ios|
  {
    if ios == [] then 0
    else
      var now := if ios[|ios| - 1] then REPOLL_COUNT else CountdownOf(ios[..|ios| - 1]);
      if now > 0 then now - 1 else 0
  }

  predicate RecentIo(ios: seq<bool>, from: int) {
    exists s :: 0 <= s < |ios| && from <= s && ios[s]
  }

  lemma {:induction false} CountdownExact(ios: seq<bool>, k: nat)
    requires 1 <= k <= REPOLL_COUNT
    ensures CountdownOf(ios) >= k <==> RecentIo(ios, |ios| - (REPOLL_COUNT - k))
    decreases |ios|
  {
    if ios != [] {
      var init, n := ios[..|ios| - 1], |ios| - 1;
      if k < REPOLL_COUNT {
        CountdownExact(init, k + 1);
        if RecentIo(init, |init| - (REPOLL_COUNT - k - 1)) {
          var s :| 0 <= s < n && |init| - (REPOLL_COUNT - k - 1) <= s && init[s];
          assert ios[s];
        }
        if RecentIo(ios, |ios| - (REPOLL_COUNT - k)) {
          var s :| 0 <= s < |ios| && |ios| - (REPOLL_COUNT - k) <= s && ios[s];
          if s < n { assert init[s]; }
        }
        assert ios[n] ==> RecentIo(ios, |ios| - (REPOLL_COUNT - k));
      } else {
        CountdownBelow(ios);
      }
    }
  }

  lemma {:induction false} CountdownBelow(ios: seq<bool>)
    ensures CountdownOf(ios) < REPOLL_COUNT
    decreases |ios|
  {
    if ios != [] { CountdownBelow(ios[..|ios| - 1]); }
  }

  /** Which sweeps were followed by the short pause. */
  predicate Paced(ios: seq<bool>, shorts: seq<bool>) {
    |ios| == |shorts| && forall t :: 0 <= t < |ios| ==> shorts[t] == (ios[t] || CountdownOf(ios[..t]) > 0)
  }

  lemma PacedNext(ios: seq<bool>, shorts: seq<bool>, io: bool)
    requires Paced(ios, shorts)
    ensures Paced(ios + [io], shorts + [io || CountdownOf(ios) > 0])
  {
    assert (ios + [io])[..|ios|] == ios;
    forall t | 0 <= t < |ios| ensures (ios + [io])[..t] == ios[..t] {}
  }

  /** A sweep is followed by the short pause exactly when one of the last five sweeps, itself
      included, met an I/O trap. */
  lemma ShortPauses(ios: seq<bool>, shorts: seq<bool>, t: nat)
    requires Paced(ios, shorts) && t < |ios|
    ensures shorts[t] <==> RecentIo(ios[..t + 1], t + 1 - REPOLL_COUNT)
  {
    var upto, before := ios[..t + 1], ios[..t];
    CountdownExact(before, 1);
    assert upto[t] == ios[t];
    if RecentIo(before, t - 4) {
      var s :| 0 <= s < t && t - 4 <= s && before[s];
      assert upto[s];
    }
    if RecentIo(upto, t - 4) {
      var s :| 0 <= s < t + 1 && t - 4 <= s && upto[s];
      if s < t { assert before[s]; }
    }
  }

  // ----- sweeps

  predicate AsksIo(p: Poll) {
    p.exception.Trap? && p.exception.number in {0, 1, 2, 6, 7}
  }

  /** The last core of the rectangle has been polled, and need not be polled again at once. */
  predicate EndsSweep(v: Visit, rows: nat, cols: nat) {
    v.core.row == rows - 1 && v.core.col == cols - 1 && !Lives(v.poll)
  }

  /** Where the sweep after those that ended at `ends` begins. */
  function From(ends: seq<nat>, t: nat): nat
    requires t <= |ends|
  {
    if t == 0 then 0 else ends[t - 1]
  }

  /** The polls from `from` up to `to` belong to one sweep; `io` tells whether one of them met an I/O trap. */
  predicate OneSweep(log: seq<Visit>, rows: nat, cols: nat, from: nat, to: nat, io: bool) {
    && from <= to <= |log|
    && (forall i :: from <= i < to - 1 ==> !EndsSweep(log[i], rows, cols))
    && (io <==> exists i :: from <= i < to && AsksIo(log[i].poll))
  }

  predicate SweepAt(log: seq<Visit>, rows: nat, cols: nat, ends: seq<nat>, ios: seq<bool>, t: nat)
    requires |ios| == |ends| && t < |ends|
  {
    && From(ends, t) < ends[t] && OneSweep(log, rows, cols, From(ends, t), ends[t], ios[t])
    && (t < |ends| - 1 ==> EndsSweep(log[ends[t] - 1], rows, cols))
  }

  /** The sweeps, one after the other: each ends with the poll that ends it, but for the last, which may
      be broken off. */
  predicate Swept(log: seq<Visit>, rows: nat, cols: nat, ends: seq<nat>, ios: seq<bool>) {
    && |ios| == |ends|
    && forall t :: 0 <= t < |ends| ==> SweepAt(log, rows, cols, ends, ios, t)
  }

  /** All polls belong to these sweeps, and polling can go on with another. */
  predicate SweptUp(log: seq<Visit>, rows: nat, cols: nat, ends: seq<nat>, ios: seq<bool>, polling: bool) {
    && Swept(log, rows, cols, ends, ios) && From(ends, |ends|) == |log|
    && (polling && log != [] ==> EndsSweep(log[|log| - 1], rows, cols))
  }

  /** Inside the sweep that begins at `from`; `done` when its last poll has been made. */
  predicate Sweeping(log: seq<Visit>, rows: nat, cols: nat, ends: seq<nat>, ios: seq<bool>, from: nat, io: bool) {
    && Swept(log, rows, cols, ends, ios) && from == From(ends, |ends|) && OneSweep(log, rows, cols, from, |log|, io)
    && (from > 0 ==> EndsSweep(log[from - 1], rows, cols))
  }

  predicate AtEnd(log: seq<Visit>, rows: nat, cols: nat, from: nat, done: bool) {
    from < |log| ==> (EndsSweep(log[|log| - 1], rows, cols) <==> done)
  }

  lemma SweepBegins(log: seq<Visit>, rows: nat, cols: nat, ends: seq<nat>, ios: seq<bool>)
    requires SweptUp(log, rows, cols, ends, ios, true)
    ensures Sweeping(log, rows, cols, ends, ios, |log|, false) && AtEnd(log, rows, cols, |log|, false)
  {
    hide Swept, AsksIo, EndsSweep;
  }

  lemma SweepGoesOn(log: seq<Visit>, rows: nat, cols: nat, ends: seq<nat>, ios: seq<bool>, from: nat, io: bool,
                    v: Visit)
    requires Sweeping(log, rows, cols, ends, ios, from, io) && AtEnd(log, rows, cols, from, false)
    ensures Sweeping(log + [v], rows, cols, ends, ios, from, io || AsksIo(v.poll))
    ensures AtEnd(log + [v], rows, cols, from, EndsSweep(v, rows, cols)) && from < |log + [v]|
  {
    hide AsksIo, EndsSweep, OneSweep, SweepAt, From;
    forall t | 0 <= t < |ends| ensures SweepAt(log + [v], rows, cols, ends, ios, t) {
      SameSweepAt(log, v, rows, cols, ends, ios, t);
    }
    LongerSweep(log, v, rows, cols, from, io);
    assert OneSweep(log, rows, cols, from, |log|, io) ==> from <= |log| by { SweepBound(log, rows, cols, from, io); }
  }

  lemma SweepBound(log: seq<Visit>, rows: nat, cols: nat, from: nat, io: bool)
    ensures OneSweep(log, rows, cols, from, |log|, io) ==> from <= |log|
  {
  }

  lemma LongerSweep(log: seq<Visit>, v: Visit, rows: nat, cols: nat, from: nat, io: bool)
    requires OneSweep(log, rows, cols, from, |log|, io) && AtEnd(log, rows, cols, from, false)
    ensures OneSweep(log + [v], rows, cols, from, |log + [v]|, io || AsksIo(v.poll))
  {
    hide AsksIo, EndsSweep;
    var log' := log + [v];
    if io {
      var i :| from <= i < |log| && AsksIo(log[i].poll);
      assert AsksIo(log'[i].poll);
    } else if AsksIo(v.poll) {
      assert AsksIo(log'[|log|].poll);
    }
  }

  lemma SameSweepAt(log: seq<Visit>, v: Visit, rows: nat, cols: nat, ends: seq<nat>, ios: seq<bool>, t: nat)
    requires |ios| == |ends| && t < |ends| && SweepAt(log, rows, cols, ends, ios, t)
    ensures SweepAt(log + [v], rows, cols, ends, ios, t)
  {
    SameSweep(log, v, rows, cols, From(ends, t), ends[t], ios[t]);
  }

  lemma SameSweep(log: seq<Visit>, v: Visit, rows: nat, cols: nat, from: nat, to: nat, io: bool)
    requires OneSweep(log, rows, cols, from, to, io)
    ensures OneSweep(log + [v], rows, cols, from, to, io)
  {
    hide AsksIo, EndsSweep;
    if io {
      var i :| from <= i < to && AsksIo(log[i].poll);
      assert AsksIo((log + [v])[i].poll);
    }
  }

  lemma SweepEnds(log: seq<Visit>, rows: nat, cols: nat, ends: seq<nat>, ios: seq<bool>, from: nat, io: bool,
                  polling: bool)
    requires Sweeping(log, rows, cols, ends, ios, from, io) && from < |log|
    requires polling ==> AtEnd(log, rows, cols, from, true)
    ensures SweptUp(log, rows, cols, ends + [|log|], ios + [io], polling)
  {
    hide AsksIo, EndsSweep, OneSweep;
    var ends', ios' := ends + [|log|], ios + [io];
    forall t | 0 <= t < |ends'| ensures SweepAt(log, rows, cols, ends', ios', t) {
      if t < |ends| {
        assert SweepAt(log, rows, cols, ends, ios, t);
        assert From(ends', t) == From(ends, t) && ends'[t] == ends[t] && ios'[t] == ios[t];
      }
    }
  }

  // ----- what a finished run has done

  /** The polls begin with the first core. A core whose I/O was served is polled again at once; otherwise
      the next one in its row follows, or the first of the next row, or of the rectangle. */
  predicate PolledInOrder(log: seq<Visit>, rows: nat, cols: nat) {
    && (log != [] ==> log[0].core == Core(0, 0))
    && (forall i :: 0 <= i < |log| - 1 && Lives(log[i].poll) ==> log[i + 1].core == log[i].core)
    && (forall i :: 0 <= i < |log| - 1 && !Lives(log[i].poll) ==>
          var c, next := log[i].core, log[i + 1].core;
          && (c.col + 1 < cols ==> next.row == c.row && next.col == c.col + 1)
          && (c.col + 1 >= cols ==> next.col == 0 && next.row == if c.row + 1 < rows then c.row + 1 else 0))
  }

  lemma OrderExact(scripts: Grid<Script>, left: Grid<Script>, rows: nat, cols: nat, log: seq<Visit>, m: Monitor)
    requires Reached(scripts, left, rows, cols, log, m)
    ensures PolledInOrder(log, rows, cols)
  {
    hide AllFaithful, Continues, ObserveAll;
  }

  lemma {:induction false} SeenHas(log: seq<Visit>, i: nat)
    requires i < |log|
    ensures log[i].poll in Seen(log, log[i].core)
    decreases |log|
  {
    if i < |log| - 1 { SeenHas(log[..|log| - 1], i); }
  }

  lemma FaithfulMember(script: Script, left: Script, seen: seq<Poll>, p: Poll)
    requires Faithful(script, left, seen) && p in seen
    ensures p in script.events || (p == script.final && Halt(p) && left.events == [])
  {
    var i :| 0 <= i < |seen| && seen[i] == p;
    if left.events != [] {
      assert (seen + left.events)[i] == p;
    } else if i < |script.events| {
      assert script.events[i] == p;
    }
  }

  lemma {:induction false} HaltSeen(seen: seq<Poll>) returns (p: Poll)
    requires AtHalt(seen)
    ensures p in seen && Halt(p)
    decreases |seen|
  {
    p := seen[|seen| - 1];
    if !Halt(p) { p := HaltSeen(seen[..|seen| - 1]); }
  }

  predicate Smooth(scripts: Grid<Script>) {
    forall r, c :: 0 <= r < |scripts| && 0 <= c < |scripts[r]| ==> AllServed(scripts[r][c])
  }

  predicate AllServed(script: Script) {
    forall i :: 0 <= i < |script.events| ==> !Wrong(script.events[i])
  }

  predicate NeverHalts(script: Script) {
    forall i :: 0 <= i < |script.events| ==> !Halts(script.events[i])
  }

  predicate HaltsAtEnd(scripts: Grid<Script>) {
    forall r, c :: 0 <= r < |scripts| && 0 <= c < |scripts[r]| ==> Halts(scripts[r][c].final)
  }

  lemma ScriptDone(script: Script, left: Script, seen: seq<Poll>)
    requires Faithful(script, left, seen) && AtHalt(seen) && NeverHalts(script)
    ensures script.events <= seen && forall i :: |script.events| <= i < |seen| ==> seen[i] == script.final
  {
    var p := HaltSeen(seen);
    FaithfulMember(script, left, seen, p);
  }

  /** If nothing in the scripts goes wrong, the monitor ends with success; with success, every core's
      last event was a halt, its status is that of the halt that set its flag, and a core that halts only
      at the end of its script has had every one of its traps served, once each and in order, and has the
      status of its final halt. */
  lemma ServiceTheorem(scripts: Grid<Script>, left: Grid<Script>, rows: nat, cols: nat, log: seq<Visit>, m: Monitor)
    requires rows > 0 && cols > 0 && Reached(scripts, left, rows, cols, log, m) && !m.polling
    ensures Smooth(scripts) ==> m.result == 0
    ensures m.result == 0 <==> All(m.trapped)
    ensures m.exited == Count(m.trapped)
    ensures Shape(scripts, rows, cols) && Sized(m, rows, cols)
    ensures m.result == 0 ==>
              forall r, c :: 0 <= r < rows && 0 <= c < cols ==>
                Served(scripts[r][c], Seen(log, Core(r, c)), m.status[r][c])
  {
    hide InOrder, Continues, ObserveAll, Count, Served;
    if Smooth(scripts) { FailureOf(scripts, left, rows, cols, log, m); }
    PollingTheorem(rows, cols, log);
    if m.result == 0 {
      forall r, c | 0 <= r < rows && 0 <= c < cols
        ensures Served(scripts[r][c], Seen(log, Core(r, c)), m.status[r][c]) {
        FlagsExact(rows, cols, log, Core(r, c));
        StatusExact(rows, cols, log, Core(r, c));
        ServedBy(scripts[r][c], left[r][c], Seen(log, Core(r, c)), m.status[r][c]);
      }
    }
  }

  /** A core is at a halt, with the status of the halt that began it. */
  predicate Served(script: Script, seen: seq<Poll>, status: int) {
    && CameToHalt(seen)
    && KeptFrom(seen, status)
    && (NeverHalts(script) ==> script.events <= seen && Records(script.final, status))
  }

  lemma ServedBy(script: Script, left: Script, seen: seq<Poll>, status: int)
    requires Faithful(script, left, seen) && CameToHalt(seen)
    requires KeptFrom(seen, status)
    ensures Served(script, seen, status)
  {
    AtHaltExact(seen);
    if NeverHalts(script) {
      ScriptDone(script, left, seen);
      var i :| 0 <= i < |seen| && FirstHalt(seen, i) && Records(seen[i], status);
    }
  }

  lemma FailureOf(scripts: Grid<Script>, left: Grid<Script>, rows: nat, cols: nat, log: seq<Visit>, m: Monitor)
    requires Reached(scripts, left, rows, cols, log, m) && Smooth(scripts)
    ensures m.result == 0
  {
    hide InOrder, Continues, ObserveAll, Seen, Faithful;
    FailureExact(rows, cols, log);
    if log != [] {
      var v := log[|log| - 1];
      assert AllServed(scripts[v.core.row][v.core.col]);
      SeenHas(log, |log| - 1);
      FaithfulMember(scripts[v.core.row][v.core.col], left[v.core.row][v.core.col], Seen(log, v.core), v.poll);
    }
  }

  // ----- the loops

  /** In this sweep no script has moved on, so every core visited has been found at its exit. */
  predicate SweptIdle(trapped: Grid<bool>, rows: nat, cols: nat, row: nat, col: nat)
    requires Shape(trapped, rows, cols)
  {
    forall r, c :: 0 <= r < rows && 0 <= c < cols && (r < row || (r == row && c < col)) ==> trapped[r][c]
  }

  lemma IdleStart(trapped: Grid<bool>, rows: nat, cols: nat)
    requires Shape(trapped, rows, cols)
    ensures SweptIdle(trapped, rows, cols, 0, 0)
  {
  }

  lemma IdleNextRow(trapped: Grid<bool>, rows: nat, cols: nat, row: nat)
    requires Shape(trapped, rows, cols) && SweptIdle(trapped, rows, cols, row, cols)
    ensures SweptIdle(trapped, rows, cols, row + 1, 0)
  {
  }

  lemma IdleStep(trapped: Grid<bool>, rows: nat, cols: nat, c: Core)
    requires Shape(trapped, rows, cols) && Within(c, rows, cols) && SweptIdle(trapped, rows, cols, c.row, c.col)
    ensures SweptIdle(Put(trapped, rows, cols, c, true), rows, cols, c.row, c.col + 1)
    ensures Get(trapped, rows, cols, c) ==> SweptIdle(trapped, rows, cols, c.row, c.col + 1)
  {
  }

  /** A sweep that finds every core at its exit is the last one. */
  lemma IdleEnds(scripts: Grid<Script>, left: Grid<Script>, rows: nat, cols: nat, log: seq<Visit>, m: Monitor)
    requires rows > 0 && cols > 0 && Reached(scripts, left, rows, cols, log, m)
    requires SweptIdle(m.trapped, rows, cols, rows, 0)
    ensures !m.polling
  {
    PollingTheorem(rows, cols, log);
  }

  lemma UpcomingStart(rows: nat, cols: nat)
    requires rows > 0 && cols > 0
    ensures Upcoming([], rows, cols, 0, 0)
  {
  }

  lemma UpcomingNext(log: seq<Visit>, rows: nat, cols: nat, row: nat)
    requires row < rows && cols > 0 && Upcoming(log, rows, cols, row, cols)
    ensures Upcoming(log, rows, cols, row + 1, 0)
    ensures row + 1 == rows ==> Upcoming(log, rows, cols, 0, 0)
  {
  }

  /** Poll the rectangle until every core has exited, or a poll goes wrong. */
  method ServiceTraps(firstRow: int, lastRow: int, firstCol: int, lastCol: int, scripts: Grid<Script>)
    returns (result: int, trapped: Grid<bool>, status: Grid<int>, ghost log: seq<Visit>, ghost left: Grid<Script>,
            ghost exits: int, ghost ends: seq<nat>, ghost ios: seq<bool>, ghost shorts: seq<bool>)
    requires firstRow <= lastRow && firstCol <= lastCol
    requires Shape(scripts, lastRow - firstRow + 1, lastCol - firstCol + 1) && HaltsAtEnd(scripts)
    ensures var rows, cols := lastRow - firstRow + 1, lastCol - firstCol + 1;
            Reached(scripts, left, rows, cols, log, Monitor(trapped, status, exits, false, result))
    ensures PolledInOrder(log, lastRow - firstRow + 1, lastCol - firstCol + 1)
    ensures SweptUp(log, lastRow - firstRow + 1, lastCol - firstCol + 1, ends, ios, false) && Paced(ios, shorts)
    ensures result == 0 <==> All(trapped)
    ensures Smooth(scripts) ==> result == 0
  {
    hide Reached, Upcoming, Sum, Count, Paced, SweptIdle, SweptUp, Sweeping, AtEnd;
    var rows, cols := lastRow - firstRow + 1, lastCol - firstCol + 1;
    var total := rows * cols;
    result := 0;
    var polling, countdown, exited := true, 0, 0;
    trapped, status := Fresh(rows, cols, false), Fresh(rows, cols, 0);
    var ahead := scripts;
    log, ends, ios, shorts := [], [], [], [];
    StartReached(scripts, rows, cols);
    UpcomingStart(rows, cols);
    PacedStart();
    assert SweptUp([], rows, cols, [], [], true) by { NoSweeps(rows, cols); }
    while polling
      invariant Shape(ahead, rows, cols) && Shape(trapped, rows, cols) && Shape(status, rows, cols)
      invariant Reached(scripts, ahead, rows, cols, log, Monitor(trapped, status, exited, polling, result))
      invariant polling ==> Upcoming(log, rows, cols, 0, 0)
      invariant SweptUp(log, rows, cols, ends, ios, polling) && Paced(ios, shorts) && countdown == CountdownOf(ios)
      decreases polling, Sum(ahead, Length)
    {
      ghost var work, io, from := Sum(ahead, Length), false, |log|;
      SweepBegins(log, rows, cols, ends, ios);
      var row := firstRow;
      IdleStart(trapped, rows, cols);
      while row <= lastRow && polling
        invariant firstRow <= row <= lastRow + 1
        invariant Shape(ahead, rows, cols) && Shape(trapped, rows, cols) && Shape(status, rows, cols)
        invariant Reached(scripts, ahead, rows, cols, log, Monitor(trapped, status, exited, polling, result))
        invariant polling ==> Upcoming(log, rows, cols, row - firstRow, 0)
        invariant polling && row == lastRow + 1 ==> Upcoming(log, rows, cols, 0, 0)
        invariant Sum(ahead, Length) <= work
        invariant polling && Sum(ahead, Length) == work ==> SweptIdle(trapped, rows, cols, row - firstRow, 0)
        invariant countdown == if io then REPOLL_COUNT else CountdownOf(ios)
        invariant Sweeping(log, rows, cols, ends, ios, from, io) && (row > firstRow || !polling ==> from < |log|)
        invariant polling ==> AtEnd(log, rows, cols, from, row == lastRow + 1)
        decreases lastRow - row
      {
        var col := firstCol;
        while col <= lastCol && polling
          invariant firstCol <= col <= lastCol + 1
          invariant Shape(ahead, rows, cols) && Shape(trapped, rows, cols) && Shape(status, rows, cols)
          invariant Reached(scripts, ahead, rows, cols, log, Monitor(trapped, status, exited, polling, result))
          invariant polling ==> Upcoming(log, rows, cols, row - firstRow, col - firstCol)
          invariant Sum(ahead, Length) <= work
          invariant polling && Sum(ahead, Length) == work ==>
                    SweptIdle(trapped, rows, cols, row - firstRow, col - firstCol)
          invariant countdown == if io then REPOLL_COUNT else CountdownOf(ios)
          invariant Sweeping(log, rows, cols, ends, ios, from, io)
          invariant row > firstRow || col > firstCol || !polling ==> from < |log|
          invariant polling ==> AtEnd(log, rows, cols, from, row == lastRow && col == lastCol + 1)
          decreases Sum(ahead, Length), lastCol - col
        {
          var c := Core(row - firstRow, col - firstCol);
          var script := Get(ahead, rows, cols, c);
          var poll := Next(script);
          ghost var m := Monitor(trapped, status, exited, polling, result);
          StepReached(scripts, ahead, rows, cols, log, m, c.row, c.col);
          ahead := Put(ahead, rows, cols, c, Rest(script));
          if Sum(ahead, Length) == work { IdleStep(trapped, rows, cols, c); }
          ghost var wasIo := io;
          var action := 1;
          if poll.exception.Running? {
          } else if poll.exception.Failure? {
            polling, result := false, -1;
          } else if poll.exception.Trap?
            && poll.exception.number in {SYSCALL_TRAP, WRITE_TRAP, READ_TRAP, OPEN_TRAP, CLOSE_TRAP} {
            action := if poll.served then 0 else -1;
            if action == -1 {
              polling, result := false, -1;
            } else if trapped[c.row][c.col] {
              trapped := Put(trapped, rows, cols, c, false);
              exited := exited - 1;
            }
            countdown := REPOLL_COUNT;
            io := true;
          } else if !trapped[c.row][c.col] {
            exited := exited + 1;
            if exited == total {
              polling, result := false, 0;
            }
            trapped := Put(trapped, rows, cols, c, true);
            status := Put(status, rows, cols, c, StatusOf(poll));
          }
          assert Monitor(trapped, status, exited, polling, result) == Observe(m, rows, cols, Visit(c, poll));
          SweepGoesOn(log, rows, cols, ends, ios, from, wasIo, Visit(c, poll));
          log := log + [Visit(c, poll)];
          if action != 0 {
            col := col + 1;
          }
        }
        if polling {
          UpcomingNext(log, rows, cols, row - firstRow);
          if Sum(ahead, Length) == work { IdleNextRow(trapped, rows, cols, row - firstRow); }
        }
        row := row + 1;
      }
      if polling && Sum(ahead, Length) == work {
        IdleEnds(scripts, ahead, rows, cols, log, Monitor(trapped, status, exited, polling, result));
      }
      SweepEnds(log, rows, cols, ends, ios, from, io, polling);
      PacedNext(ios, shorts, io);
      ends, ios, shorts := ends + [|log|], ios + [io], shorts + [countdown > 0];
      if countdown > 0 {
        countdown := countdown - 1;
      }
    }
    left, exits := ahead, exited;
    ServiceTheorem(scripts, left, rows, cols, log, Monitor(trapped, status, exits, false, result));
    OrderExact(scripts, left, rows, cols, log, Monitor(trapped, status, exits, false, result));
  }

  lemma NoSweeps(rows: nat, cols: nat)
    ensures SweptUp([], rows, cols, [], [], true)
  {
  }

  lemma PacedStart()
    ensures Paced([], [])
  {
  }

  lemma StartReached(scripts: Grid<Script>, rows: nat, cols: nat)
    requires Shape(scripts, rows, cols) && HaltsAtEnd(scripts)
    ensures Reached(scripts, scripts, rows, cols, [], Start(rows, cols))
  {
  }
}
