/** Finding an endpoint by its key: a task searches its endpoints in the order of its index. */
module EndpointLookup {
  import opened Connections
  import A = Assembly
  import H = Handshake
  import S = Startup
  import R = StartupResults

  /** What the search sees of an endpoint: its mode and the number of its connection. */
  datatype Handle = Handle(mode: S.Mode, id: nat)

  /** Does this endpoint go by this key? */
  predicate Answers(master: seq<Connection>, e: Handle, key: int) {
    e.id < |master| &&
    ((e.mode.Sending? && master[e.id].sourceKey == key) || (e.mode.Receiving? && master[e.id].sinkKey == key))
  }

  /** The result of a search: the first endpoint that goes by the key, or none if no endpoint does. */
  predicate FirstAnswer(master: seq<Connection>, es: seq<Handle>, key: int, found: S.Option<nat>) {
    match found
    case Some(i) => i < |es| && Answers(master, es[i], key) && forall j :: 0 <= j < i ==> !Answers(master, es[j], key)
    case None => forall j :: 0 <= j < |es| ==> !Answers(master, es[j], key)
  }

  method GetEndpoint(master: seq<Connection>, endpoints: seq<Handle>, key: int) returns (found: S.Option<nat>)
    requires forall i :: 0 <= i < |endpoints| ==> endpoints[i].id < |master|
    ensures FirstAnswer(master, endpoints, key, found)
  {
    var i := 0;
    while i < |endpoints|
      invariant 0 <= i <= |endpoints|
      invariant forall j :: 0 <= j < i ==> !Answers(master, endpoints[j], key)
    {
      var e := endpoints[i];
      if e.mode.Sending? && master[e.id].sourceKey == key {
        return S.Some(i);
      } else if e.mode.Receiving? && master[e.id].sinkKey == key {
        return S.Some(i);
      }
      i := i + 1;
    }
    found := S.None;
  }

  /** The endpoints that task `t` sets up from its index: it takes itself for the sender if it can. */
  function EndpointsOf(l: Lists, t: nat): (es: seq<Handle>)
    requires Consistent(l) && t < |l.lookups|
    ensures |es| == |l.lookups[t]|
    ensures forall a :: 0 <= a < |es| ==> es[a].id < |l.master| && es[a].id == l.lookups[t][a]
  {
    forall a | 0 <= a < |l.lookups[t]| ensures l.lookups[t][a] < |l.master| {
      NamingExact(l.master, t, l.lookups[t][a]);
    }
    seq(|l.lookups[t]|, a requires 0 <= a < |l.lookups[t]| =>
      var c := l.lookups[t][a];
      Handle(if l.master[c].source == t then S.Sending else S.Receiving, c))
  }

  /** The endpoints of a task as the search sees them. */
  function Handles(slots: seq<S.Slot>): seq<Handle> {
    seq(|slots|, i requires 0 <= i < |slots| => Handle(slots[i].mode, slots[i].conn))
  }

  /** A task that has published its endpoints searches exactly those that its index describes. */
  lemma HandlesOfIndex(l: Lists, cfgs: seq<H.Config>, s: S.State, t: nat)
    requires Consistent(l) && A.Usable(cfgs, |l.master|) && R.Inv(A.Application(l, cfgs), s)
    requires t < |s.tasks| && !s.tasks[t].phase.Publishing?
    ensures t < |l.lookups| && Handles(s.tasks[t].slots) == EndpointsOf(l, t)
  {
    var app := A.Application(l, cfgs);
    forall i | 0 <= i < |s.tasks[t].slots| ensures Handles(s.tasks[t].slots)[i] == EndpointsOf(l, t)[i] {
      assert R.SlotOk(app, s, t, i);
      NamingExact(l.master, t, l.lookups[t][i]);
    }
  }

  /** No task uses one key both for sending and for receiving. */
  predicate KeysApart(master: seq<Connection>) {
    forall i, j :: 0 <= i < |master| && 0 <= j < |master| ==>
      !(master[i].source == master[j].sink && master[i].sourceKey == master[j].sinkKey)
  }

  predicate KeysUnique(master: seq<Connection>) {
    SourceKeysUnique(master) && SinkKeysUnique(master) && KeysApart(master)
  }

  /** With keys unique per task, each connection between two tasks is found by exactly one endpoint of
      its source, under the source key, and exactly one endpoint of its sink, under the sink key. */
  lemma LookupFindsBothEnds(l: Lists, c: nat, a: nat)
    requires Consistent(l) && KeysUnique(l.master) && c < |l.master| && l.master[c].source != l.master[c].sink
    ensures a < |EndpointsOf(l, l.master[c].source)| ==>
              (Answers(l.master, EndpointsOf(l, l.master[c].source)[a], l.master[c].sourceKey) <==>
               a == A.SourceSlot(l.master, c))
    ensures a < |EndpointsOf(l, l.master[c].sink)| ==>
              (Answers(l.master, EndpointsOf(l, l.master[c].sink)[a], l.master[c].sinkKey) <==>
               a == A.SinkSlot(l.master, c))
    ensures A.SourceSlot(l.master, c) < |EndpointsOf(l, l.master[c].source)|
    ensures A.SinkSlot(l.master, c) < |EndpointsOf(l, l.master[c].sink)|
  {
    A.SlotsOf(l, c);
    var conn := l.master[c];
    if a < |l.lookups[conn.source]| { A.SlotIsPlace(l.master, conn.source, a); }
    if a < |l.lookups[conn.sink]| { A.SlotIsPlace(l.master, conn.sink, a); }
  }

  /** The receiving end of a connection from a task to itself cannot be found. */
  lemma SelfConnectionHidesReceiver(l: Lists, c: nat, a: nat)
    requires Consistent(l) && KeysUnique(l.master) && c < |l.master| && l.master[c].source == l.master[c].sink
    requires a < |EndpointsOf(l, l.master[c].sink)|
    ensures !Answers(l.master, EndpointsOf(l, l.master[c].sink)[a], l.master[c].sinkKey)
  {
    A.SlotIsPlace(l.master, l.master[c].sink, a);
  }
}
