/** A mesh from its connections to its communicating tasks. */
module MeshStartup {
  import opened Connections
  import opened Mesh
  import opened MeshResults
  import EndpointLookup
  import A = Assembly
  import H = Handshake
  import S = Startup
  import StartupResults

  /** Task `t`, searching the endpoints it has, finds this one under `key`, and there is no other. */
  predicate FoundAt(l: Lists, s: S.State, t: int, key: int, a: nat) {
    && 0 <= t < |s.tasks|
    && var es := EndpointLookup.Handles(s.tasks[t].slots);
       && EndpointLookup.FirstAnswer(l.master, es, key, S.Some(a))
       && forall i :: 0 <= i < |es| && i != a ==> !EndpointLookup.Answers(l.master, es[i], key)
  }

  /** What one task finds under its key and what the other finds under its own are the two ends of a
      link: a sending and a receiving endpoint that point at each other. */
  predicate PointAtEachOther(l: Lists, s: S.State, t: int, key: int, a: nat, t': int, key': int, b: nat) {
    && FoundAt(l, s, t, key, a) && FoundAt(l, s, t', key', b)
    && var from, to := S.Ref(t, a), S.Ref(t', b);
       && S.Exists(s, from) && S.At(s, from).mode == S.Sending && S.At(s, from).remote == S.Some(to)
       && S.Exists(s, to) && S.At(s, to).mode == S.Receiving && S.At(s, to).remote == S.Some(from)
  }

  ghost predicate Joined(l: Lists, s: S.State, t: int, key: int, t': int, key': int) {
    exists a, b :: PointAtEachOther(l, s, t, key, a, t', key', b)
  }

  lemma EntryJoined(l: Lists, s: S.State, c: nat)
    requires Consistent(l) && EndpointLookup.KeysUnique(l.master) && c < |l.master|
    requires l.master[c].source != l.master[c].sink
    requires l.master[c].source < |s.tasks| && l.master[c].sink < |s.tasks|
    requires EndpointLookup.Handles(s.tasks[l.master[c].source].slots)
             == EndpointLookup.EndpointsOf(l, l.master[c].source)
    requires EndpointLookup.Handles(s.tasks[l.master[c].sink].slots) == EndpointLookup.EndpointsOf(l, l.master[c].sink)
    requires var a, b := S.Ref(l.master[c].source, A.SourceSlot(l.master, c)),
             S.Ref(l.master[c].sink, A.SinkSlot(l.master, c));
             && S.Exists(s, a) && S.At(s, a).mode == S.Sending && S.At(s, a).remote == S.Some(b)
             && S.Exists(s, b) && S.At(s, b).mode == S.Receiving && S.At(s, b).remote == S.Some(a)
    ensures Joined(l, s, l.master[c].source, l.master[c].sourceKey, l.master[c].sink, l.master[c].sinkKey)
  {
    hide EndpointLookup.Answers, EndpointLookup.KeysUnique, A.SourceSlot, A.SinkSlot, EndpointLookup.Handles,
        Consistent;
    var conn, a, b := l.master[c], A.SourceSlot(l.master, c), A.SinkSlot(l.master, c);
    ConsistentInRange(l);
    EndpointLookup.LookupFindsBothEnds(l, c, a);
    EndpointLookup.LookupFindsBothEnds(l, c, b);
    forall i | 0 <= i < |l.lookups[conn.source]|
      ensures EndpointLookup.Answers(l.master, EndpointLookup.EndpointsOf(l, conn.source)[i], conn.sourceKey)
              <==> i == a
    {
      EndpointLookup.LookupFindsBothEnds(l, c, i);
    }
    forall i | 0 <= i < |l.lookups[conn.sink]|
      ensures EndpointLookup.Answers(l.master, EndpointLookup.EndpointsOf(l, conn.sink)[i], conn.sinkKey) <==> i == b
    {
      EndpointLookup.LookupFindsBothEnds(l, c, i);
    }
    assert PointAtEachOther(l, s, conn.source, conn.sourceKey, a, conn.sink, conn.sinkKey, b);
  }

  /** In a run of an application without self-connections a started task has the endpoints of its index. */
  lemma StartedHandles(l: Lists, cfgs: seq<H.Config>, s0: S.State, steps: seq<S.Step>, t: nat)
    requires Consistent(l) && A.Usable(cfgs, |l.master|) && A.NoneToSelf(l.master)
    requires S.Initial(A.Application(l, cfgs), s0) && S.Run(A.Application(l, cfgs), s0, steps)
    requires var s := S.Exec(A.Application(l, cfgs), s0, steps); t < |s.tasks| && s.tasks[t].phase.Active?
    ensures t < |l.lookups|
    ensures EndpointLookup.Handles(S.Exec(A.Application(l, cfgs), s0, steps).tasks[t].slots)
            == EndpointLookup.EndpointsOf(l, t)
  {
    var app := A.Application(l, cfgs);
    assert S.NoSelfConnection(app);
    StartupResults.InitialInv(app, s0);
    StartupResults.RunKeepsInv(app, s0, steps);
    EndpointLookup.HandlesOfIndex(l, cfgs, S.Exec(app, s0, steps), t);
  }

  /** Whenever, in any run of the application that the mesh builder prepares, two neighbours have both
      finished start-up, the endpoints they find under their keys for each other are joined. The mesh
      must not wrap around a single row or column. */
  lemma NeighboursJoined(rows: nat, cols: nat, wrap: bool, configured: seq<bool>, cfgs: seq<H.Config>,
                         s0: S.State, steps: seq<S.Step>, k: Link)
    requires Sound(rows, cols) && WorkgroupConfigured(configured, rows, cols) && Wanted(rows, cols, wrap, k)
    requires !wrap || (rows >= 2 && cols >= 2)
    requires var l := A.Built(configured, MeshConnections(rows, cols, wrap, configured));
             && A.Usable(cfgs, |l.master|)
             && S.Initial(A.Application(l, cfgs), s0) && S.Run(A.Application(l, cfgs), s0, steps)
    requires var l := A.Built(configured, MeshConnections(rows, cols, wrap, configured));
             var s := S.Exec(A.Application(l, cfgs), s0, steps);
             && 0 <= TaskAt(cols, k.row, k.col) < |s.tasks| && s.tasks[TaskAt(cols, k.row, k.col)].phase.Active?
             && 0 <= Target(rows, cols, k) < |s.tasks| && s.tasks[Target(rows, cols, k)].phase.Active?
    ensures var l := A.Built(configured, MeshConnections(rows, cols, wrap, configured));
            Joined(l, S.Exec(A.Application(l, cfgs), s0, steps),
                   TaskAt(cols, k.row, k.col), SendKey(k.dir), Target(rows, cols, k), ReceiveKey(k.dir))
  {
    hide MeshConnections, A.Built, A.Application, Joined, EndpointLookup.KeysUnique, WorkgroupConfigured, Wanted,
        Target, TaskAt,
      SendKey, ReceiveKey, S.Run, S.Exec;
    var cs := MeshConnections(rows, cols, wrap, configured);
    MeshAccepted(rows, cols, wrap, configured);
    MeshKeysUnique(rows, cols, wrap, configured);
    SelfConnectionsExactly(rows, cols, wrap, configured);
    var c := EntryOfLink(rows, cols, wrap, configured, k);
    var l := A.Built(configured, cs);
    ConsistentInRange(l);
    A.RequestedApplicationResolves(configured, cs, cfgs, s0, steps, c);
    StartedHandles(l, cfgs, s0, steps, l.master[c].source);
    StartedHandles(l, cfgs, s0, steps, l.master[c].sink);
    EntryJoined(l, S.Exec(A.Application(l, cfgs), s0, steps), c);
  }
}
