/** From the connections an application asks for to its start-up: the lists that the host builds are
    fit for the start-up protocol, whatever was asked for. */
module Assembly {
  import opened Connections
  import S = Startup
  import H = Handshake
  import StartupResults
  import StartupProgress

  /** Where entry `c` stands in the index of its source and of its sink; a task connected with itself
      has it twice. */
  function SourceSlot(master: seq<Connection>, c: nat): nat
    requires c < |master|
  {
    |Naming(master[..c], master[c].source)|
  }

  function SinkSlot(master: seq<Connection>, c: nat): nat
    requires c < |master|
  {
    |Naming(master[..c], master[c].sink)| + (if master[c].source == master[c].sink then 1 else 0)
  }

  /** What the tasks of an application find in shared memory. */
  function SharedLists(l: Lists, cfgs: seq<H.Config>): S.App
    requires TasksInRange(l)
  {
    var m := l.master;
    S.App(l.lookups,
          seq(|m|, c requires 0 <= c < |m| => S.Connection(m[c].source, m[c].sink)),
          seq(|m|, c requires 0 <= c < |m| => SourceSlot(m, c)),
          seq(|m|, c requires 0 <= c < |m| => SinkSlot(m, c)),
          cfgs)
  }

  predicate Usable(cfgs: seq<H.Config>, n: nat) {
    |cfgs| == n && forall c :: 0 <= c < n ==> cfgs[c].modulus >= 2
  }

  predicate NoneToSelf(cs: seq<Connection>) {
    forall i :: 0 <= i < |cs| ==> cs[i].source != cs[i].sink
  }

  lemma {:induction false} NamingGrows(master: seq<Connection>, t: int, n: nat)
    requires n <= |master|
    ensures Naming(master[..n], t) <= Naming(master, t)
    decreases |master|
  {
    if n < |master| {
      NamingGrows(master[..|master| - 1], t, n);
      assert master[..|master| - 1][..n] == master[..n];
    } else {
      assert master[..n] == master;
    }
  }

  /** An entry stands in the index of each of its ends at the slot given above. */
  lemma SlotsOf(l: Lists, c: nat)
    requires Consistent(l) && c < |l.master|
    ensures var m := l.master;
            && SourceSlot(m, c) < |l.lookups[m[c].source]| && l.lookups[m[c].source][SourceSlot(m, c)] == c
            && SinkSlot(m, c) < |l.lookups[m[c].sink]| && l.lookups[m[c].sink][SinkSlot(m, c)] == c
  {
    var m := l.master;
    NamingGrows(m, m[c].source, c + 1);
    NamingGrows(m, m[c].sink, c + 1);
    assert m[..c + 1][..c] == m[..c];
  }

  /** Every slot of an index is the place of its entry at one of the entry's ends. */
  lemma {:induction false} SlotIsPlace(master: seq<Connection>, t: int, i: nat)
    requires i < |Naming(master, t)|
    ensures var c := Naming(master, t)[i];
            c < |master| && ((master[c].source == t && SourceSlot(master, c) == i)
              || (master[c].sink == t && SinkSlot(master, c) == i))
    decreases |master|
  {
    var n := |master| - 1;
    if i < |Naming(master[..n], t)| {
      SlotIsPlace(master[..n], t, i);
      var c := Naming(master[..n], t)[i];
      assert master[..n][..c] == master[..c];
    }
  }

  lemma ApplicationIndexed(l: Lists, cfgs: seq<H.Config>)
    requires Consistent(l) && Usable(cfgs, |l.master|)
    ensures S.Indexed(SharedLists(l, cfgs))
  {
    var app := SharedLists(l, cfgs);
    forall t, i | 0 <= t < |app.index| && 0 <= i < |app.index[t]| ensures S.ListsOwn(app, t, i) {
      SlotIsPlace(l.master, t, i);
    }
    forall c | 0 <= c < |app.conns| ensures S.ListedByBoth(app, c) {
      SlotsOf(l, c);
    }
  }

  function Application(l: Lists, cfgs: seq<H.Config>): (app: S.App)
    requires Consistent(l) && Usable(cfgs, |l.master|)
    ensures S.Indexed(app)
  {
    ApplicationIndexed(l, cfgs);
    SharedLists(l, cfgs)
  }

  /** The lists after a sequence of requests. */
  function Built(configured: seq<bool>, cs: seq<Connection>): (l: Lists)
    ensures Consistent(l)
  {
    IndexTheorem(configured, cs);
    Requests(NoLists(|configured|), configured, cs)
  }

  lemma {:induction false} OnlyRequested(l: Lists, configured: seq<bool>, cs: seq<Connection>)
    requires NoneToSelf(l.master) && NoneToSelf(cs)
    ensures NoneToSelf(Requests(l, configured, cs).master)
    decreases |cs|
  {
    if cs != [] { OnlyRequested(Request(l, configured, cs[0]).0, configured, cs[1..]); }
  }

  /** Whatever connections are asked for, the tasks that start from the resulting lists resolve each
      accepted connection reciprocally, provided no task was connected with itself. */
  lemma RequestedApplicationResolves(configured: seq<bool>, cs: seq<Connection>, cfgs: seq<H.Config>,
                                     s0: S.State, steps: seq<S.Step>, c: nat)
    requires NoneToSelf(cs)
    requires var l := Built(configured, cs);
             && Usable(cfgs, |l.master|) && c < |l.master|
             && S.Initial(Application(l, cfgs), s0) && S.Run(Application(l, cfgs), s0, steps)
             && var s := S.Exec(Application(l, cfgs), s0, steps);
                && l.master[c].source < |s.tasks| && s.tasks[l.master[c].source].phase.Active?
                && l.master[c].sink < |s.tasks| && s.tasks[l.master[c].sink].phase.Active?
    ensures var l := Built(configured, cs);
            var s := S.Exec(Application(l, cfgs), s0, steps);
            var a, b := S.Ref(l.master[c].source, SourceSlot(l.master, c)),
                S.Ref(l.master[c].sink, SinkSlot(l.master, c));
            && S.Exists(s, a) && S.At(s, a).mode == S.Sending && S.At(s, a).remote == S.Some(b) && S.At(s, a).conn == c
            && S.Exists(s, b) && S.At(s, b).mode == S.Receiving && S.At(s, b).remote == S.Some(a)
            && S.At(s, b).conn == c
  {
    var l := Built(configured, cs);
    OnlyRequested(NoLists(|configured|), configured, cs);
    var app := Application(l, cfgs);
    assert S.NoSelfConnection(app);
    StartupResults.ReciprocityTheorem(app, s0, steps, c);
  }

  /** A task connected with itself never leaves start-up. */
  lemma SelfConnectedNeverStarts(l: Lists, cfgs: seq<H.Config>, s0: S.State, steps: seq<S.Step>, c: nat)
    requires Consistent(l) && Usable(cfgs, |l.master|) && c < |l.master| && l.master[c].source == l.master[c].sink
    requires S.Initial(Application(l, cfgs), s0) && S.Run(Application(l, cfgs), s0, steps)
    ensures S.Shaped(Application(l, cfgs), S.Exec(Application(l, cfgs), s0, steps))
    ensures !S.Exec(Application(l, cfgs), s0, steps).tasks[l.master[c].source].phase.Active?
  {
    SlotsOf(l, c);
    StartupProgress.SelfConnectionTheorem(Application(l, cfgs), s0, steps, l.master[c].source, c,
      SourceSlot(l.master, c));
  }
}
