/** The state of an application, judged from the states of its tasks, and how it can change while the
    tasks live. */
module ApplicationState {

  const FAILED_APPLICATION := -1
  const SUCCESSFUL_APPLICATION := 0
  const VIRGIN_APPLICATION := 1
  const INITIALIZING_APPLICATION := 2
  const RUNNING_APPLICATION := 3

  const SUCCESSFUL_TASK := 0
  const VIRGIN_TASK := 1
  const INITIALIZING_TASK := 2
  const ACTIVE_TASK := 3

  const ERROR_CODES_START := -30000
  const RESULT_OUT_OF_RANGE := -30008
  const INTERNAL_ERROR := -30010

  /** A task descriptor: is it in use, and its state. */
  datatype Descriptor = Descriptor(inUse: bool, state: int)

  datatype Kind = Unused | Virgin | Initializing | Active | Successful | Failed

  function KindOf(d: Descriptor): Kind {
    if !d.inUse then Unused
    else if d.state >= ACTIVE_TASK then Active
    else if d.state == INITIALIZING_TASK then Initializing
    else if d.state == VIRGIN_TASK then Virgin
    else if d.state == SUCCESSFUL_TASK then Successful
    else Failed
  }

  predicate Has(table: seq<Descriptor>, k: Kind) {
    exists i :: 0 <= i < |table| && KindOf(table[i]) == k
  }

  function Count(table: seq<Descriptor>, k: Kind): nat {
    if table == [] then 0
    else Count(table[..|table| - 1], k) + (if KindOf(table[|table| - 1]) == k then 1 else 0)
  }

  /** The verdict: failed if any task has; untouched if none has started; successful if every task
      that has started has ended well; initializing if some task still is; else running. */
  function Verdict(table: seq<Descriptor>): int {
    if Has(table, Failed) then FAILED_APPLICATION
    else if !Has(table, Initializing) && !Has(table, Active) then
      (if Has(table, Successful) then SUCCESSFUL_APPLICATION else VIRGIN_APPLICATION)
    else if Has(table, Initializing) then INITIALIZING_APPLICATION
    else RUNNING_APPLICATION
  }

  datatype Statistics = Statistics(virgin: int, initializing: int, active: int, successful: int, failed: int,
    unused: int)

  /** The state is reported as an unsigned 16-bit value. */
  function Unsigned16(v: int): nat {
    v % 0x1_0000
  }

  lemma {:induction false} CountHas(table: seq<Descriptor>, k: Kind)
    ensures Count(table, k) > 0 <==> Has(table, k)
    decreases |table|
  {
    if table != [] {
      var n := |table| - 1;
      CountHas(table[..n], k);
      if i :| 0 <= i < |table| && KindOf(table[i]) == k && i < n { assert KindOf(table[..n][i]) == k; }
      if Has(table[..n], k) {
        var i :| 0 <= i < n && KindOf(table[..n][i]) == k;
        assert KindOf(table[i]) == k;
      }
    }
  }

  lemma {:induction false} KindsPartition(table: seq<Descriptor>)
    ensures Count(table, Unused) + Count(table, Virgin) + Count(table, Initializing) + Count(table, Active)
            + Count(table, Successful) + Count(table, Failed) == |table|
    decreases |table|
  {
    if table != [] { KindsPartition(table[..|table| - 1]); }
  }

  predicate InUse(table: seq<Descriptor>, i: int) {
    0 <= i < |table| && table[i].inUse
  }

  /** The reported state as the states of the tasks in use decide it: 65535 if one is negative; else 2 if
      one is 2; else 3 if one is 3 or more; else 0 if one is 0; and 1 if all are 1. */
  ghost predicate Judged(table: seq<Descriptor>, result: int) {
    && result in {0, 1, 2, 3, 65535}
    && (result == 65535 <==> exists i :: InUse(table, i) && table[i].state < 0)
    && (result == 2 <==> && (forall i :: InUse(table, i) ==> table[i].state >= 0)
                         && exists i :: InUse(table, i) && table[i].state == 2)
    && (result == 3 <==> && (forall i :: InUse(table, i) ==> table[i].state >= 0 && table[i].state != 2)
                         && exists i :: InUse(table, i) && table[i].state >= 3)
    && (result == 0 <==> && (forall i :: InUse(table, i) ==> table[i].state == 0 || table[i].state == 1)
                         && exists i :: InUse(table, i) && table[i].state == 0)
    && (result == 1 <==> forall i :: InUse(table, i) ==> table[i].state == 1)
  }

  lemma HasInUse(table: seq<Descriptor>)
    ensures Has(table, Failed) <==> exists i :: InUse(table, i) && table[i].state < 0
    ensures Has(table, Successful) <==> exists i :: InUse(table, i) && table[i].state == 0
    ensures Has(table, Virgin) <==> exists i :: InUse(table, i) && table[i].state == 1
    ensures Has(table, Initializing) <==> exists i :: InUse(table, i) && table[i].state == 2
    ensures Has(table, Active) <==> exists i :: InUse(table, i) && table[i].state >= 3
  {
    forall k: Kind ensures Has(table, k) <==> exists i :: 0 <= i < |table| && KindOf(table[i]) == k {}
    forall i | InUse(table, i) ensures Has(table, KindOf(table[i])) {}
  }

  lemma VerdictExact(table: seq<Descriptor>)
    ensures Judged(table, Unsigned16(Verdict(table)))
  {
    hide Has;
    HasInUse(table);
  }

  /** How many tasks there are in each state. */
  predicate Tallied(table: seq<Descriptor>, s: Statistics) {
    && s.virgin == |set i | 0 <= i < |table| && table[i].inUse && table[i].state == 1|
    && s.initializing == |set i | 0 <= i < |table| && table[i].inUse && table[i].state == 2|
    && s.active == |set i | 0 <= i < |table| && table[i].inUse && table[i].state >= 3|
    && s.successful == |set i | 0 <= i < |table| && table[i].inUse && table[i].state == 0|
    && s.failed == |set i | 0 <= i < |table| && table[i].inUse && table[i].state < 0|
    && s.unused == |set i | 0 <= i < |table| && !table[i].inUse|
  }

  function OfKind(table: seq<Descriptor>, k: Kind): set<int> {
    set i | 0 <= i < |table| && KindOf(table[i]) == k
  }

  lemma {:induction false} CountIsCardinality(table: seq<Descriptor>, k: Kind)
    ensures Count(table, k) == |OfKind(table, k)|
    decreases |table|
  {
    hide KindOf;
    if table != [] {
      var n := |table| - 1;
      CountIsCardinality(table[..n], k);
      if KindOf(table[n]) == k {
        assert OfKind(table, k) == OfKind(table[..n], k) + {n};
      } else {
        assert OfKind(table, k) == OfKind(table[..n], k);
      }
    }
  }

  lemma CountsTally(table: seq<Descriptor>, s: Statistics)
    requires s == Statistics(Count(table, Virgin), Count(table, Initializing), Count(table, Active),
                             Count(table, Successful), Count(table, Failed), Count(table, Unused))
    ensures Tallied(table, s)
  {
    forall k: Kind ensures Count(table, k) == |OfKind(table, k)| {
      CountIsCardinality(table, k);
    }
    assert OfKind(table, Virgin) == set i | 0 <= i < |table| && table[i].inUse && table[i].state == 1;
    assert OfKind(table, Initializing) == set i | 0 <= i < |table| && table[i].inUse && table[i].state == 2;
    assert OfKind(table, Active) == set i | 0 <= i < |table| && table[i].inUse && table[i].state >= 3;
    assert OfKind(table, Successful) == set i | 0 <= i < |table| && table[i].inUse && table[i].state == 0;
    assert OfKind(table, Failed) == set i | 0 <= i < |table| && table[i].inUse && table[i].state < 0;
    assert OfKind(table, Unused) == set i | 0 <= i < |table| && !table[i].inUse;
  }

  method GetApplicationState(table: seq<Descriptor>) returns (result: nat, s: Statistics)
    ensures result == Unsigned16(Verdict(table)) && Judged(table, result)
    ensures Tallied(table, s)
    ensures s.virgin + s.initializing + s.active + s.successful + s.failed + s.unused == |table|
  {
    var inUse, failed, successful, virgin, initializing, active := 0, 0, 0, 0, 0, 0;
    var i := 0;
    while i < |table|
      invariant 0 <= i <= |table|
      invariant virgin == Count(table[..i], Virgin) && initializing == Count(table[..i], Initializing)
                && active == Count(table[..i], Active) && successful == Count(table[..i], Successful)
                && failed == Count(table[..i], Failed)
      invariant inUse == virgin + initializing + active + successful + failed
    {
      var d := table[i];
      assert table[..i + 1][..i] == table[..i];
      if d.inUse {
        inUse := inUse + 1;
        if d.state >= ACTIVE_TASK {
          active := active + 1;
        } else if d.state == INITIALIZING_TASK {
          initializing := initializing + 1;
        } else if d.state == VIRGIN_TASK {
          virgin := virgin + 1;
        } else if d.state == SUCCESSFUL_TASK {
          successful := successful + 1;
        } else {
          failed := failed + 1;
        }
      }
      i := i + 1;
    }
    assert table[..i] == table;
    CountHas(table, Failed);
    CountHas(table, Successful);
    CountHas(table, Initializing);
    CountHas(table, Active);
    var verdict;
    if failed > 0 {
      verdict := FAILED_APPLICATION;
    } else if virgin == inUse {
      verdict := VIRGIN_APPLICATION;
    } else if successful + virgin == inUse {
      verdict := SUCCESSFUL_APPLICATION;
    } else if initializing > 0 {
      verdict := INITIALIZING_APPLICATION;
    } else {
      verdict := RUNNING_APPLICATION;
    }
    result := Unsigned16(verdict);
    s := Statistics(virgin, initializing, active, successful, failed, |table| - inUse);
    VerdictExact(table);
    KindsPartition(table);
    CountsTally(table, s);
  }

  /** The reported value tells the verdicts apart, but the failed one is not negative: it is above
      every other state. */
  lemma ReportedVerdicts(a: seq<Descriptor>, b: seq<Descriptor>)
    ensures Unsigned16(Verdict(a)) == Unsigned16(Verdict(b)) <==> Verdict(a) == Verdict(b)
    ensures Unsigned16(Verdict(a)) == Verdict(a) <==> !Has(a, Failed)
    ensures Has(a, Failed) <==> Unsigned16(Verdict(a)) > RUNNING_APPLICATION
  {
  }

  // ----- the end of a task

  /** A 16-bit pattern as a signed value. */
  function Signed16(v: nat): int
    requires v < 0x1_0000
  {
    if v < 0x8000 then v else v - 0x1_0000
  }

  /** The state a task leaves when its program returns. */
  function Reported(programResult: int): int {
    var result :=
      if programResult > 0 || programResult <= ERROR_CODES_START then RESULT_OUT_OF_RANGE else programResult;
    Signed16(Unsigned16(result))
  }

  /** Every result ends the task, and a result is reported as it is exactly when it is a terminal state
      of the program's own, or the very code for a result out of range. */
  lemma ReportedIsTerminal(programResult: int)
    ensures RESULT_OUT_OF_RANGE <= Reported(programResult) <= 0
    ensures Reported(programResult) == programResult <==>
            (ERROR_CODES_START < programResult <= 0 || programResult == RESULT_OUT_OF_RANGE)
    ensures Reported(programResult) == SUCCESSFUL_TASK <==> programResult == 0
  {
  }

  // ----- lives of tasks

  datatype Event =
    | Start(t: nat)                    // begins to set up its endpoints
    | SetUp(t: nat, ok: bool)          // has set them up, or has failed to
    | Progress(t: nat, state: int)     // reports another active state
    | Return(t: nat, result: int)      // its program returns

  predicate Possible(table: seq<Descriptor>, e: Event) {
    && e.t < |table| && table[e.t].inUse
    && match e
       case Start(t) => table[t].state == VIRGIN_TASK
       case SetUp(t, _) => table[t].state == INITIALIZING_TASK
       case Progress(t, s) => table[t].state >= ACTIVE_TASK && s >= ACTIVE_TASK
       case Return(t, _) => table[t].state >= ACTIVE_TASK
  }

  function StateAfter(e: Event): int {
    match e
    case Start(_) => INITIALIZING_TASK
    case SetUp(_, ok) => if ok then ACTIVE_TASK else Signed16(Unsigned16(INTERNAL_ERROR))
    case Progress(_, s) => s
    case Return(_, r) => Reported(r)
  }

  function Next(table: seq<Descriptor>, e: Event): seq<Descriptor>
    requires Possible(table, e)
  {
    table[e.t := Descriptor(true, StateAfter(e))]
  }

  /** What each event leaves, in numbers: a task that begins is in state 2; then in state 3, or in state
      -30010 when its endpoints could not be set up; at the end it leaves the program's result, or -30008
      for a result above 0 or not above -30000. All other tasks stay as they are. */
  lemma EventLeaves(table: seq<Descriptor>, e: Event)
    requires Possible(table, e)
    ensures var after := Next(table, e);
            && |after| == |table| && after[e.t].inUse
            && (forall i :: 0 <= i < |table| && i != e.t ==> after[i] == table[i])
            && (e.Start? ==> after[e.t].state == 2)
            && (e.SetUp? ==> after[e.t].state == if e.ok then 3 else -30010)
            && (e.Progress? ==> after[e.t].state == e.state)
            && (e.Return? && (e.result > 0 || e.result <= -30000) ==> after[e.t].state == -30008)
            && (e.Return? && -30000 < e.result <= 0 ==> after[e.t].state == e.result)
  {
  }

  predicate Life(table: seq<Descriptor>, es: seq<Event>)
    decreases |es|
  {
    es == [] || (Possible(table, es[0]) && Life(Next(table, es[0]), es[1..]))
  }

  function After(table: seq<Descriptor>, es: seq<Event>): seq<Descriptor>
    requires Life(table, es)
    decreases |es|
  {
    if es == [] then table else After(Next(table, es[0]), es[1..])
  }

  /** What every event keeps: a finished task stays as it is, an unused slot unused, and no task
      becomes virgin again. */
  lemma {:induction false} LifeKeeps(table: seq<Descriptor>, es: seq<Event>, t: nat)
    requires Life(table, es) && t < |table|
    ensures |After(table, es)| == |table|
    ensures !table[t].inUse || table[t].state <= 0 ==> After(table, es)[t] == table[t]
    ensures KindOf(After(table, es)[t]) == Virgin ==> KindOf(table[t]) == Virgin
    ensures KindOf(After(table, es)[t]) == Unused <==> KindOf(table[t]) == Unused
    decreases |es|
  {
    if es != [] { LifeKeeps(Next(table, es[0]), es[1..], t); }
  }

  /** Once an application has failed it stays failed. */
  lemma FailureIsPermanent(table: seq<Descriptor>, es: seq<Event>)
    requires Life(table, es) && Verdict(table) == FAILED_APPLICATION
    ensures Verdict(After(table, es)) == FAILED_APPLICATION
  {
    var i :| 0 <= i < |table| && KindOf(table[i]) == Failed;
    LifeKeeps(table, es, i);
    assert KindOf(After(table, es)[i]) == Failed;
  }

  predicate SuccessAfter(table: seq<Descriptor>, es: seq<Event>) {
    Life(table, es) ==> Verdict(After(table, es)) == SUCCESSFUL_APPLICATION
  }

  /** Success lasts through every life of the tasks exactly when no task is left to start. */
  lemma SuccessIsPermanentExactly(table: seq<Descriptor>)
    requires Verdict(table) == SUCCESSFUL_APPLICATION
    ensures (forall es :: SuccessAfter(table, es)) <==> !Has(table, Virgin)
  {
    if Has(table, Virgin) {
      var t :| 0 <= t < |table| && KindOf(table[t]) == Virgin;
      var es := [Start(t)];
      assert es[1..] == [];
      var after := Next(table, es[0]);
      assert Life(after, []) && Life(table, es) && After(table, es) == after;
      assert KindOf(after[t]) == Initializing;
      assert Has(after, Initializing);
      assert !SuccessAfter(table, es);
    } else {
      forall es ensures SuccessAfter(table, es) {
        if Life(table, es) { AllFinished(table, es); }
      }
    }
  }

  lemma AllFinished(table: seq<Descriptor>, es: seq<Event>)
    requires Life(table, es) && !Has(table, Virgin) && !Has(table, Initializing) && !Has(table, Active)
    ensures After(table, es) == table
  {
    LifeLength(table, es);
    forall t | 0 <= t < |table| ensures After(table, es)[t] == table[t] {
      assert KindOf(table[t]) != Virgin && KindOf(table[t]) != Initializing && KindOf(table[t]) != Active;
      LifeKeeps(table, es, t);
    }
  }

  lemma {:induction false} LifeLength(table: seq<Descriptor>, es: seq<Event>)
    requires Life(table, es)
    ensures |After(table, es)| == |table|
    decreases |es|
  {
    if es != [] { LifeLength(Next(table, es[0]), es[1..]); }
  }

  /** When nothing more can happen, the application has succeeded if and only if every task in use
      ended with result zero, provided there is such a task. */
  lemma FinalVerdict(table: seq<Descriptor>)
    requires forall e :: !Possible(table, e)
    ensures Verdict(table) == SUCCESSFUL_APPLICATION <==>
            (exists i :: 0 <= i < |table| && table[i].inUse)
            && forall i :: 0 <= i < |table| && table[i].inUse ==> table[i].state == SUCCESSFUL_TASK
    ensures Verdict(table) in {FAILED_APPLICATION, SUCCESSFUL_APPLICATION, VIRGIN_APPLICATION}
  {
    forall i | 0 <= i < |table| ensures KindOf(table[i]) in {Unused, Successful, Failed} {
      assert !Possible(table, Start(i)) && !Possible(table, SetUp(i, true)) && !Possible(table, Return(i, 0));
    }
    if i :| 0 <= i < |table| && table[i].inUse && table[i].state == SUCCESSFUL_TASK {
      assert KindOf(table[i]) == Successful;
    }
    if i :| 0 <= i < |table| && table[i].inUse && table[i].state != SUCCESSFUL_TASK {
      assert KindOf(table[i]) == Failed;
    }
  }
}
