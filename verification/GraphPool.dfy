/** The pool of audio graphs opened in advance (native/src/audio_bridge.c). */
module GraphPool {
  import opened Options

  const CAPACITY: nat := 4
  const TARGET: nat := 4
  const RELEARN: nat := 3

  type Description = nat
  type NodeId = nat
  datatype Connection = Connection(source: NodeId, sourceBus: nat, destination: NodeId, destinationBus: nat)

  /** What is recorded of a graph as it is built; entries past the counts are left over. */
  datatype Topology = Topology(
    nodeCount: nat,
    connectionCount: nat,
    unpoolable: bool,
    nodes: seq<Description>,
    ids: seq<NodeId>,
    connections: seq<Connection>)

  predicate Proper(t: Topology)
  {
    && |t.nodes| == |t.ids| == |t.connections| == CAPACITY
    && t.nodeCount <= CAPACITY && t.connectionCount <= CAPACITY
  }

  /** An open graph: the nodes it was given, the numbers they got, and how they are connected. */
  datatype Shape = Shape(nodes: seq<Description>, ids: seq<NodeId>, connections: seq<Connection>)
  datatype Graph = Graph(id: nat, shape: Shape)

  function ShapeOf(t: Topology): Shape
    requires Proper(t)
  {
    Shape(t.nodes[..t.nodeCount], t.ids[..t.nodeCount], t.connections[..t.connectionCount])
  }

  /** graph_topologies_match. */
  predicate SameTopology(a: Topology, b: Topology)
    requires Proper(a) && Proper(b)
  {
    && a.nodeCount == b.nodeCount && a.connectionCount == b.connectionCount
    && a.nodes[..a.nodeCount] == b.nodes[..a.nodeCount]
    && a.ids[..a.nodeCount] == b.ids[..a.nodeCount]
    && a.connections[..a.connectionCount] == b.connections[..a.connectionCount]
  }

  /** Topologies match exactly when graphs built from them are alike. */
  lemma SameMeansAlike(a: Topology, b: Topology)
    requires Proper(a) && Proper(b)
    ensures SameTopology(a, b) <==> ShapeOf(a) == ShapeOf(b)
  {
    assert |ShapeOf(a).nodes| == a.nodeCount && |ShapeOf(b).nodes| == b.nodeCount;
    assert |ShapeOf(a).connections| == a.connectionCount && |ShapeOf(b).connections| == b.connectionCount;
  }

  /** How the host answers while a graph is built: the number it gives each new node, whether it
      makes each connection, and whether the graph opens. */
  datatype Host = Host(creates: bool, numbers: seq<Option<NodeId>>, connects: seq<bool>, opens: bool)

  predicate Obliging(h: Host, t: Topology)
    requires Proper(t) && |h.numbers| == |h.connects| == CAPACITY
  {
    && h.creates && h.opens
    && (forall i :: 0 <= i < t.nodeCount ==> h.numbers[i] == Some(t.ids[i]))
    && (forall i :: 0 <= i < t.connectionCount ==> h.connects[i])
  }

  /** build_pooled_graph: a graph, or nothing when the host fails or numbers a node otherwise. */
  method BuildPooled(t: Topology, h: Host, id: nat) returns (graph: Option<Graph>, disposed: bool)
    requires Proper(t) && |h.numbers| == |h.connects| == CAPACITY
    ensures graph == if Obliging(h, t) then Some(Graph(id, ShapeOf(t))) else None
    ensures disposed <==> h.creates && !Obliging(h, t)
  {
    if !h.creates {
      return None, false;
    }
    var shape, ok, index := Shape([], [], []), true, 0;
    while ok && index < t.nodeCount
      invariant index <= t.nodeCount
      invariant ok <==> forall i :: 0 <= i < index ==> h.numbers[i] == Some(t.ids[i])
      invariant ok ==> shape == Shape(t.nodes[..index], t.ids[..index], [])
    {
      ok := h.numbers[index] == Some(t.ids[index]);
      if ok {
        shape := Shape(shape.nodes + [t.nodes[index]], shape.ids + [h.numbers[index].value], []);
      }
      index := index + 1;
    }
    index := 0;
    ghost var numbered := ok;
    while ok && index < t.connectionCount
      invariant index <= t.connectionCount
      invariant ok <==> numbered && forall i :: 0 <= i < index ==> h.connects[i]
      invariant ok ==> shape == Shape(t.nodes[..t.nodeCount], t.ids[..t.nodeCount], t.connections[..index])
    {
      ok := h.connects[index];
      if ok {
        shape := shape.(connections := shape.connections + [t.connections[index]]);
      }
      index := index + 1;
    }
    if ok {
      ok := h.opens;
    }
    graph, disposed := if ok then Some(Graph(id, shape)) else None, !ok;
  }

  // ---------------------------------------------------------------- the pool

  datatype Pool = Pool(
    template: Option<Topology>,
    mismatches: nat,
    matches: nat,
    graphs: seq<Graph>,
    pending: nat)

  /** The request for a graph that a guest makes when it opens one. */
  predicate Poolable(t: Topology) {
    !t.unpoolable && t.nodeCount > 0
  }

  predicate Hit(p: Pool, t: Topology)
    requires Proper(t) && (p.template.Some? ==> Proper(p.template.value))
  {
    p.template.Some? && SameTopology(t, p.template.value)
  }

  /** A template nothing has matched is replaced at once, another after three misses in a row. */
  predicate Relearns(p: Pool) {
    p.template.None? || p.matches == 0 || p.mismatches + 1 >= RELEARN
  }

  /** How many refills are asked for, when there is memory for `memory` of them. */
  function Missing(p: Pool, memory: nat): nat
  {
    var wanted := if |p.graphs| + p.pending < TARGET then TARGET - |p.graphs| - p.pending else 0;
    if wanted < memory then wanted else memory
  }

  /** What a request leaves of the pool, before refills are asked for. */
  function Asked(p: Pool, t: Topology): Pool
    requires Proper(t) && (p.template.Some? ==> Proper(p.template.value))
  {
    if Hit(p, t) then
      p.(mismatches := 0, matches := p.matches + 1, graphs := if p.graphs == [] then [] else p.graphs[..|p.graphs| - 1])
    else if Relearns(p) then Pool(Some(t), 0, 0, [], p.pending)
    else p.(mismatches := p.mismatches + 1)
  }

  /** take_pooled_graph. */
  function Took(p: Pool, t: Topology, memory: nat): Pool
    requires Proper(t) && (p.template.Some? ==> Proper(p.template.value))
  {
    if !Poolable(t) then p else Asked(p, t).(pending := p.pending + Missing(Asked(p, t), memory))
  }

  function Given(p: Pool, t: Topology): Option<Graph>
    requires Proper(t) && (p.template.Some? ==> Proper(p.template.value))
  {
    if Poolable(t) && Hit(p, t) && p.graphs != [] then Some(p.graphs[|p.graphs| - 1]) else None
  }

  /** The graphs a request throws out with their template. */
  function ThrownOut(p: Pool, t: Topology): seq<Graph>
    requires Proper(t) && (p.template.Some? ==> Proper(p.template.value))
  {
    if Poolable(t) && !Hit(p, t) && Relearns(p) then p.graphs else []
  }

  predicate Keeps(p: Pool, snapshot: Topology)
    requires Proper(snapshot) && (p.template.Some? ==> Proper(p.template.value))
  {
    p.template.Some? && |p.graphs| < TARGET && SameTopology(snapshot, p.template.value)
  }

  /** The end of a refill: the graph built from `snapshot`, if any, joins a pool it still fits. */
  function Refilled(p: Pool, snapshot: Topology, graph: Option<Graph>): Pool
    requires Proper(snapshot) && (p.template.Some? ==> Proper(p.template.value))
  {
    var pending := if p.pending > 0 then p.pending - 1 else 0;
    if graph.Some? && Keeps(p, snapshot) then p.(graphs := p.graphs + [graph.value], pending := pending)
    else p.(pending := pending)
  }

  const UNCONNECTED: Connection := Connection(0, 0, 0, 0)
  const NOTHING: Topology :=
    Topology(0, 0, false, [0, 0, 0, 0], [0, 0, 0, 0], [UNCONNECTED, UNCONNECTED, UNCONNECTED, UNCONNECTED])

  /** The pool's own state. */
  class GraphPool {
    var template: Topology
    var templateValid: bool
    var mismatches: nat
    var matches: nat
    const graphs: array<Graph>
    var count: nat
    var pending: nat
    var hits: nat
    var misses: nat

    ghost predicate Valid()
      reads this
    {
      graphs.Length == TARGET && count <= TARGET && Proper(template)
    }

    ghost function Contents(): (p: Pool)
      reads this, graphs
      requires Valid()
      ensures p.template.Some? ==> Proper(p.template.value)
    {
      Pool(if templateValid then Some(template) else None, mismatches, matches, graphs[..count], pending)
    }

    constructor ()
      ensures Valid() && fresh(graphs) && Contents() == Pool(None, 0, 0, [], 0) && hits == misses == 0
    {
      template, templateValid, mismatches, matches := NOTHING, false, 0, 0;
      graphs := new Graph[TARGET](_ => Graph(0, Shape([], [], [])));
      count, pending, hits, misses := 0, 0, 0, 0;
    }

    /** Asks for refills until the pool and those under way reach the target or memory runs out. */
    method ScheduleRefills(memory: nat) returns (scheduled: nat)
      requires Valid()
      modifies this
      ensures Valid() && scheduled == Missing(old(Contents()), memory)
      ensures Contents() == old(Contents()).(pending := old(pending) + scheduled)
      ensures hits == old(hits) && misses == old(misses)
    {
      scheduled := 0;
      while count + pending < TARGET
        invariant Valid() && pending == old(pending) + scheduled && scheduled <= Missing(old(Contents()), memory)
        invariant Contents() == old(Contents()).(pending := pending)
        invariant hits == old(hits) && misses == old(misses)
        decreases TARGET - pending
      {
        if scheduled == memory {
          return;
        }
        pending := pending + 1;
        scheduled := scheduled + 1;
      }
    }

    /** Throws the pooled graphs out; they are handed to the worker to dispose of. */
    method Discard() returns (thrown: seq<Graph>)
      requires Valid()
      modifies this
      ensures Valid() && thrown == old(Contents()).graphs
      ensures Contents() == old(Contents()).(graphs := [])
      ensures hits == old(hits) && misses == old(misses)
    {
      thrown := [];
      var index := 0;
      while index < count
        invariant index <= count && thrown == graphs[..index]
      {
        thrown := thrown + [graphs[index]];
        index := index + 1;
      }
      count := 0;
    }

    /** Counts a mismatch, or replaces the template and throws its graphs out. */
    method Mismatch(t: Topology) returns (thrown: seq<Graph>)
      requires Valid() && Proper(t)
      modifies this
      ensures Valid() && thrown == if Relearns(old(Contents())) then old(Contents()).graphs else []
      ensures Contents() ==
              if Relearns(old(Contents())) then Pool(Some(t), 0, 0, [], old(pending))
              else old(Contents()).(mismatches := old(mismatches) + 1)
      ensures hits == old(hits) && misses == old(misses)
    {
      thrown := [];
      var relearn := !templateValid || matches == 0;
      if !relearn {
        mismatches := mismatches + 1;
        relearn := mismatches >= RELEARN;
      }
      if relearn {
        matches := 0;
        thrown := Discard();
        template, templateValid, mismatches := t, true, 0;
      }
    }

    method Take(t: Topology, memory: nat) returns (graph: Option<Graph>, thrown: seq<Graph>, scheduled: nat)
      requires Valid() && Proper(t)
      modifies this
      ensures Valid() && Contents() == Took(old(Contents()), t, memory)
      ensures graph == Given(old(Contents()), t) && thrown == ThrownOut(old(Contents()), t)
      ensures scheduled == pending - old(pending)
      ensures hits + misses == old(hits + misses) + (if Poolable(t) then 1 else 0)
      ensures hits == old(hits) + (if graph.Some? then 1 else 0)
    {
      graph, thrown, scheduled := None, [], 0;
      if t.unpoolable || t.nodeCount == 0 {
        return;
      }
      if templateValid && SameTopology(t, template) {
        mismatches := 0;
        matches := matches + 1;
        if count != 0 {
          count := count - 1;
          graph := Some(graphs[count]);
          hits := hits + 1;
        } else {
          misses := misses + 1;
        }
      } else {
        thrown := Mismatch(t);
        misses := misses + 1;
      }
      scheduled := ScheduleRefills(memory);
    }

    /** The second half of a refill; a graph that is not pooled is to be disposed of. */
    method FinishRefill(snapshot: Topology, graph: Option<Graph>) returns (disposed: Option<Graph>)
      requires Valid() && Proper(snapshot)
      modifies this, graphs
      ensures Valid() && Contents() == Refilled(old(Contents()), snapshot, graph)
      ensures disposed == if graph.Some? && !Keeps(old(Contents()), snapshot) then graph else None
    {
      if pending > 0 {
        pending := pending - 1;
      }
      disposed := graph;
      if graph.Some? && templateValid && count < TARGET && SameTopology(snapshot, template) {
        graphs[count] := graph.value;
        count := count + 1;
        disposed := None;
      }
    }
  }

  // ---------------------------------------------------------------- runs

  /** Where the worker is with a refill: it has read the template, or it has built from it. */
  datatype Refill = NoRefill | Building(snapshot: Option<Topology>) | Built(snapshot: Option<Topology>,
      graph: Option<Graph>)

  datatype Handed = Handed(graph: Graph, wanted: Topology)

  datatype System = System(
    pool: Pool,
    queued: nat,
    refill: Refill,
    made: nat,
    handed: seq<Handed>,
    disposed: seq<Graph>)

  datatype Event =
    | Request(t: Topology, memory: nat)
    | StartRefill
    | Build(host: Host)
    | FinishRefill

  predicate EventOk(e: Event)
  {
    (e.Request? ==> Proper(e.t)) && (e.Build? ==> |e.host.numbers| == |e.host.connects| == CAPACITY)
  }

  predicate Sound(s: System)
  {
    && (s.pool.template.Some? ==> Proper(s.pool.template.value))
    && (s.refill.Building? || s.refill.Built? ==> s.refill.snapshot.Some? ==> Proper(s.refill.snapshot.value))
    && (s.refill.Built? && s.refill.graph.Some? ==> s.refill.snapshot.Some?)
  }

  /** A request on a guest thread; the three steps of a refill on the worker, which has one at a time. */
  function Step(s: System, e: Event): System
    requires EventOk(e) && Sound(s)
  {
    match e
    case Request(t, memory) =>
      var p, given := Took(s.pool, t, memory), Given(s.pool, t);
      s.(pool := p, queued := s.queued + (if p.pending >= s.pool.pending then p.pending - s.pool.pending else 0),
         handed := s.handed + (if given.Some? then [Handed(given.value, t)] else []),
         disposed := s.disposed + ThrownOut(s.pool, t))
    case StartRefill =>
      if s.refill.NoRefill? && s.queued > 0 then s.(queued := s.queued - 1, refill := Building(s.pool.template)) else s
    case Build(host) =>
      if !s.refill.Building? then s
      else if s.refill.snapshot.Some? && Obliging(host, s.refill.snapshot.value) then
        s.(refill := Built(s.refill.snapshot, Some(Graph(s.made, ShapeOf(s.refill.snapshot.value)))), made :=
          s.made + 1)
      else s.(refill := Built(s.refill.snapshot, None))
    case FinishRefill =>
      if !s.refill.Built? then s
      else
        var snapshot, graph := if s.refill.snapshot.Some? then s.refill.snapshot.value else NOTHING, s.refill.graph;
        s.(pool := Refilled(s.pool, snapshot, graph), refill := NoRefill,
           disposed := s.disposed + (if graph.Some? && !Keeps(s.pool, snapshot) then [graph.value] else []))
  }

  function Run(s: System, events: seq<Event>): System
    requires Sound(s) && forall k :: 0 <= k < |events| ==> EventOk(events[k])
    decreases |events|
  {
    if events == [] then s else StepSound(s, events[0]); Run(Step(s, events[0]), events[1..])
  }

  lemma StepSound(s: System, e: Event)
    requires EventOk(e) && Sound(s)
    ensures Sound(Step(s, e))
  {
  }

  const START: System := System(Pool(None, 0, 0, [], 0), 0, NoRefill, 0, [], [])

  // ---------------------------------------------------------------- what every run keeps

  function HandedGraphs(handed: seq<Handed>): (graphs: seq<Graph>)
    ensures |graphs| == |handed| && forall i :: 0 <= i < |handed| ==> graphs[i] == handed[i].graph
  {
    seq(|handed|, i requires 0 <= i < |handed| => handed[i].graph)
  }

  function InHand(refill: Refill): multiset<Graph>
  {
    if refill.Built? && refill.graph.Some? then multiset{refill.graph.value} else multiset{}
  }

  /** All the graphs there are: pooled, handed out, disposed of, or in the worker's hand. */
  ghost function Everywhere(s: System): multiset<Graph>
  {
    multiset(s.pool.graphs) + multiset(HandedGraphs(s.handed)) + multiset(s.disposed) + InHand(s.refill)
  }

  /** Each graph made so far is in one place, and none that was not made. */
  ghost predicate EachOnce(all: multiset<Graph>, made: nat)
  {
    && |all| == made
    && (forall g :: g in all ==> g.id < made)
    && (forall g, h :: g in all && h in all && g.id == h.id ==> g == h)
    && (forall g :: g in all ==> all[g] == 1)
  }

  /** The pool and the refills under way stay within the target; each pending refill is in the
      worker's queue or in its hands. */
  predicate Sized(s: System)
  {
    && |s.pool.graphs| + s.pool.pending <= TARGET
    && s.pool.pending == s.queued + (if s.refill.NoRefill? then 0 else 1)
  }

  ghost predicate ShapedLike(graphs: seq<Graph>, t: Topology)
    requires Proper(t)
  {
    forall k :: 0 <= k < |graphs| ==> graphs[k].shape == ShapeOf(t)
  }

  ghost predicate PoolFits(p: Pool)
    requires p.template.Some? ==> Proper(p.template.value)
  {
    if p.template.None? then p.graphs == [] else ShapedLike(p.graphs, p.template.value)
  }

  ghost predicate AsWanted(handed: seq<Handed>)
  {
    forall k :: 0 <= k < |handed| ==> Proper(handed[k].wanted) && handed[k].graph.shape == ShapeOf(handed[k].wanted)
  }

  predicate InHandFits(s: System)
    requires Sound(s)
  {
    s.refill.Built? && s.refill.graph.Some? ==> s.refill.graph.value.shape == ShapeOf(s.refill.snapshot.value)
  }

  ghost predicate Inv(s: System)
  {
    Sound(s) && Sized(s) && PoolFits(s.pool) && AsWanted(s.handed) && InHandFits(s) && EachOnce(Everywhere(s), s.made)
  }

  // ---------------------------------------------------------------- graphs only move

  /** Between two states a graph may be handed out, the pool thrown out, the worker's graph
      pooled or thrown out, or nothing moves. */
  datatype Move = Stay | HandOut(graph: Graph, wanted: Topology) | ThrowOut | Keep(graph: Graph) | Drop(graph: Graph)

  predicate Moved(s: System, s': System, move: Move)
  {
    match move
    case Stay => s'.pool.graphs == s.pool.graphs && s'.handed == s.handed && s'.disposed == s.disposed
      && InHand(s'.refill) == InHand(s.refill)
    case HandOut(g, t) =>
      && s.pool.graphs == s'.pool.graphs + [g] && s'.handed == s.handed + [Handed(g, t)] && s'.disposed == s.disposed
      && s'.refill == s.refill
    case ThrowOut =>
      s'.pool.graphs == [] && s'.handed == s.handed && s'.disposed == s.disposed + s.pool.graphs
        && s'.refill == s.refill
    case Keep(g) =>
      && s'.pool.graphs == s.pool.graphs + [g] && s'.handed == s.handed && s'.disposed == s.disposed
      && InHand(s.refill) == multiset{g} && InHand(s'.refill) == multiset{}
    case Drop(g) =>
      && s'.pool.graphs == s.pool.graphs && s'.handed == s.handed && s'.disposed == s.disposed + [g]
      && InHand(s.refill) == multiset{g} && InHand(s'.refill) == multiset{}
  }

  lemma HandedOneMore(handed: seq<Handed>, g: Graph, t: Topology)
    ensures HandedGraphs(handed + [Handed(g, t)]) == HandedGraphs(handed) + [g]
  {
  }

  lemma MovesKeepAll(s: System, s': System, move: Move)
    requires Moved(s, s', move)
    ensures Everywhere(s') == Everywhere(s)
  {
    hide InHand, HandedGraphs;
    if move.HandOut? {
      HandedOneMore(s.handed, move.graph, move.wanted);
    }
  }

  lemma RequestMoves(s: System, t: Topology, memory: nat) returns (move: Move)
    requires Sound(s) && Proper(t)
    ensures Moved(s, Step(s, Request(t, memory)), move) && (move.HandOut? ==> move.wanted == t)
  {
    hide SameTopology, Relearns;
    var given, thrown := Given(s.pool, t), ThrownOut(s.pool, t);
    if given.Some? {
      var n := |s.pool.graphs| - 1;
      move := HandOut(given.value, t);
      assert s.pool.graphs == s.pool.graphs[..n] + [given.value];
      assert s.disposed + [] == s.disposed;
    } else if Poolable(t) && !Hit(s.pool, t) && Relearns(s.pool) {
      move := ThrowOut;
      assert s.handed + [] == s.handed;
    } else {
      move := Stay;
      assert s.handed + [] == s.handed && s.disposed + [] == s.disposed;
    }
  }

  lemma FinishMoves(s: System) returns (move: Move)
    requires Sound(s)
    ensures Moved(s, Step(s, FinishRefill), move)
  {
    hide SameTopology, ShapeOf;
    assert s.disposed + [] == s.disposed;
    if s.refill.Built? && s.refill.graph.Some? {
      move := if Keeps(s.pool, s.refill.snapshot.value) then Keep(s.refill.graph.value) else Drop(s.refill.graph.value);
    } else {
      move := Stay;
    }
  }

  lemma BuildAdds(s: System, host: Host)
    requires Sound(s) && EventOk(Build(host))
    ensures var s' := Step(s, Build(host));
            if s'.made == s.made then Everywhere(s') == Everywhere(s)
            else
              && s'.made == s.made + 1 && s'.refill.Built? && s'.refill.graph.Some?
              && s'.refill.graph.value.id == s.made
              && Everywhere(s') == Everywhere(s) + multiset{s'.refill.graph.value}
  {
    hide Obliging, HandedGraphs;
  }

  lemma OneMore(all: multiset<Graph>, made: nat, g: Graph)
    requires EachOnce(all, made) && g.id == made
    ensures EachOnce(all + multiset{g}, made + 1)
  {
    assert g !in all;
  }

  // ---------------------------------------------------------------- steps keep it

  lemma RequestSized(s: System, t: Topology, memory: nat)
    requires Sound(s) && Proper(t) && Sized(s)
    ensures Sized(Step(s, Request(t, memory)))
  {
    hide SameTopology, Relearns;
  }

  lemma RequestFits(s: System, t: Topology, memory: nat)
    requires Sound(s) && Proper(t) && PoolFits(s.pool)
    ensures Sound(Step(s, Request(t, memory))) && PoolFits(Step(s, Request(t, memory)).pool)
    ensures Given(s.pool, t).Some? ==> Given(s.pool, t).value.shape == ShapeOf(t)
  {
    if s.pool.template.Some? {
      SameMeansAlike(t, s.pool.template.value);
    }
    hide SameTopology, Relearns, ShapeOf;
  }

  lemma RequestKeeps(s: System, t: Topology, memory: nat)
    requires Inv(s) && Proper(t)
    ensures Inv(Step(s, Request(t, memory)))
  {
    var move := RequestMoves(s, t, memory);
    MovesKeepAll(s, Step(s, Request(t, memory)), move);
    RequestSized(s, t, memory);
    RequestFits(s, t, memory);
    RequestWanted(s, t, memory);
    hide EachOnce, Everywhere, PoolFits, Sized, Moved, AsWanted, Took, Given, ThrownOut;
  }

  lemma RequestWanted(s: System, t: Topology, memory: nat)
    requires Sound(s) && Proper(t) && AsWanted(s.handed) && PoolFits(s.pool)
    ensures AsWanted(Step(s, Request(t, memory)).handed)
  {
    RequestFits(s, t, memory);
    hide Took, Given, ThrownOut, PoolFits, ShapeOf;
  }

  lemma FinishFits(s: System)
    requires Sound(s) && Sized(s) && PoolFits(s.pool) && InHandFits(s)
    ensures var s' := Step(s, FinishRefill); Sound(s') && Sized(s') && PoolFits(s'.pool) && InHandFits(s')
  {
    if s.refill.Built? && s.refill.snapshot.Some? && s.pool.template.Some? {
      SameMeansAlike(s.refill.snapshot.value, s.pool.template.value);
    }
    hide SameTopology, ShapeOf;
  }

  lemma FinishKeeps(s: System)
    requires Inv(s)
    ensures Inv(Step(s, FinishRefill))
  {
    var move := FinishMoves(s);
    MovesKeepAll(s, Step(s, FinishRefill), move);
    FinishFits(s);
    hide Refilled, Keeps, EachOnce, Everywhere, Sized, PoolFits, InHandFits, Moved;
  }

  lemma BuildFits(s: System, host: Host)
    requires Sound(s) && Sized(s) && PoolFits(s.pool) && InHandFits(s) && EventOk(Build(host))
    ensures var s' := Step(s, Build(host)); Sound(s') && Sized(s') && PoolFits(s'.pool) && InHandFits(s')
  {
    hide Obliging, ShapeOf;
  }

  lemma BuildKeeps(s: System, host: Host)
    requires Inv(s) && EventOk(Build(host))
    ensures Inv(Step(s, Build(host)))
  {
    BuildAdds(s, host);
    BuildFits(s, host);
    var s' := Step(s, Build(host));
    if s'.made != s.made {
      OneMore(Everywhere(s), s.made, s'.refill.graph.value);
    }
    hide EachOnce, Everywhere, Obliging, PoolFits, Sized, InHandFits;
  }

  lemma StartStays(s: System)
    requires Sound(s) && Sized(s) && InHandFits(s)
    ensures var s' := Step(s, StartRefill);
            Moved(s, s', Stay) && Sized(s') && Sound(s') && InHandFits(s') && s'.made == s.made
  {
    hide ShapeOf, Proper;
  }

  lemma StartKeeps(s: System)
    requires Inv(s)
    ensures Inv(Step(s, StartRefill))
  {
    StartStays(s);
    hide EachOnce, Everywhere, PoolFits, AsWanted, Sized, Moved, InHandFits;
    MovesKeepAll(s, Step(s, StartRefill), Stay);
  }

  lemma StepKeeps(s: System, e: Event)
    requires Inv(s) && EventOk(e)
    ensures Inv(Step(s, e))
  {
    hide Inv;
    match e
    case Request(t, memory) => RequestKeeps(s, t, memory);
    case StartRefill => StartKeeps(s);
    case Build(host) => BuildKeeps(s, host);
    case FinishRefill => FinishKeeps(s);
  }

  /** However requests and refills interleave: the pool and the refills under way are never more
      than the target, pooled graphs are shaped like the template, guests get the shape they
      asked for, and every graph is in one place. */
  lemma {:induction false} RunKeeps(s: System, events: seq<Event>)
    requires Inv(s) && forall k :: 0 <= k < |events| ==> EventOk(events[k])
    ensures Inv(Run(s, events))
    decreases |events|
  {
    hide Inv, Step;
    if events != [] {
      InvSound(s);
      StepKeeps(s, events[0]);
      InvSound(Step(s, events[0]));
      RunKeeps(Step(s, events[0]), events[1..]);
    }
  }

  lemma InvSound(s: System)
    requires Inv(s)
    ensures Sound(s)
  {
  }

  lemma StartInv()
    ensures Inv(START)
  {
    assert Everywhere(START) == multiset{};
  }

  predicate EventsOk(events: seq<Event>)
  {
    forall k :: 0 <= k < |events| ==> EventOk(events[k])
  }

  /** A guest's request in any reachable state: the graph it gets has exactly the nodes, node
      numbers and connections it recorded, and came out of the pool for good. */
  lemma HandsOutWhatIsWanted(events: seq<Event>, t: Topology, memory: nat)
    requires EventsOk(events) && Proper(t)
    ensures Inv(Run(START, events))
    ensures var s := Run(START, events); var g := Given(s.pool, t);
            g.Some? ==>
              && g.value.shape == ShapeOf(t) && g.value in s.pool.graphs
              && g.value !in Step(s, Request(t, memory)).pool.graphs
  {
    StartInv();
    RunKeeps(START, events);
    var s := Run(START, events);
    hide Run;
    RequestFits(s, t, memory);
    if Given(s.pool, t).Some? {
      LeavesThePool(s, t, memory);
    }
  }

  lemma LeavesThePool(s: System, t: Topology, memory: nat)
    requires Inv(s) && Proper(t) && Given(s.pool, t).Some?
    ensures Given(s.pool, t).value !in Step(s, Request(t, memory)).pool.graphs
  {
    hide SameTopology, PoolFits, AsWanted, Proper;
    var g, n := Given(s.pool, t).value, |s.pool.graphs| - 1;
    assert s.pool.graphs == s.pool.graphs[..n] + [g];
    assert multiset(s.pool.graphs) == multiset(s.pool.graphs[..n]) + multiset{g};
    assert multiset(s.pool.graphs)[g] <= Everywhere(s)[g] <= 1;
    assert g !in multiset(s.pool.graphs[..n]);
  }

  // ---------------------------------------------------------------- when the template follows

  /** What the requests of a run ask for, in order. */
  function Asks(events: seq<Event>): (ts: seq<Topology>)
    requires EventsOk(events)
    ensures |ts| <= |events| && forall k :: 0 <= k < |ts| ==> Proper(ts[k])
    decreases |events|
  {
    if events == [] then []
    else
      var n := |events| - 1;
      Asks(events[..n]) + if events[n].Request? then [events[n].t] else []
  }

  /** How many requests in a row have missed at the end, `misses` having done so before the first.
      Requests that cannot be served from any pool do not count. */
  function MissRun(template: Topology, misses: nat, ts: seq<Topology>): nat
    requires Proper(template) && forall k :: 0 <= k < |ts| ==> Proper(ts[k])
    decreases |ts|
  {
    if ts == [] then misses
    else
      var before, last := MissRun(template, misses, ts[..|ts| - 1]), ts[|ts| - 1];
      if !Poolable(last) then before else if SameTopology(last, template) then 0 else before + 1
  }

  /** Request `k` is the third mismatch in a row. */
  predicate ThirdMiss(template: Topology, misses: nat, ts: seq<Topology>, k: nat)
    requires Proper(template) && k < |ts| && forall j :: 0 <= j < |ts| ==> Proper(ts[j])
  {
    Poolable(ts[k]) && !SameTopology(ts[k], template) && MissRun(template, misses, ts[..k]) + 1 == RELEARN
  }

  lemma {:induction false} RunSnoc(s: System, events: seq<Event>)
    requires Sound(s) && EventsOk(events) && events != []
    ensures var before := Run(s, events[..|events| - 1]);
            Sound(before) && Run(s, events) == Step(before, events[|events| - 1])
    decreases |events|
  {
    hide Sound, Step, EventOk;
    var n := |events| - 1;
    StepSound(s, events[0]);
    if n == 0 {
      assert events[..0] == [] && events[1..] == [];
    } else {
      assert events[1..][..n - 1] == events[..n][1..] && events[..n][0] == events[0] && events[1..][n - 1] == events[n];
      RunSnoc(Step(s, events[0]), events[1..]);
    }
  }

  /** A template that requests have matched, and the count of misses it has reached. */
  predicate Established(p: Pool, template: Topology, misses: nat)
  {
    p.template == Some(template) && p.matches > 0 && p.mismatches == misses < RELEARN
  }

  /** Whatever else happens, only requests bear on the template, with or without memory for refills. */
  lemma StepFollows(s: System, e: Event, template: Topology, misses: nat)
    requires Sound(s) && EventOk(e) && Proper(template) && Established(s.pool, template, misses)
    ensures var p := Step(s, e).pool;
            if !e.Request? || !Poolable(e.t) then Established(p, template, misses)
            else if SameTopology(e.t, template) then Established(p, template, 0)
            else if misses + 1 < RELEARN then Established(p, template, misses + 1)
            else p.template == Some(e.t)
  {
    hide SameTopology, Proper;
  }

  /** Until three mismatches come in a row an established template stays, with its count of them. */
  lemma {:induction false} TemplateStays(s: System, events: seq<Event>, template: Topology, misses: nat)
    requires Sound(s) && EventsOk(events) && Proper(template) && Established(s.pool, template, misses)
    requires forall k :: 0 <= k < |Asks(events)| ==> !ThirdMiss(template, misses, Asks(events), k)
    ensures Established(Run(s, events).pool, template, MissRun(template, misses, Asks(events)))
    decreases |events|
  {
    hide SameTopology, Proper, Sound, EventOk, Step, Established;
    if events != [] {
      var n := |events| - 1;
      var ts, before := Asks(events), Asks(events[..n]);
      RunSnoc(s, events);
      assert ts[..|before|] == before;
      forall k | 0 <= k < |before| ensures !ThirdMiss(template, misses, before, k) {
        assert before[..k] == ts[..k] && !ThirdMiss(template, misses, ts, k);
      }
      TemplateStays(s, events[..n], template, misses);
      hide ThirdMiss;
      LastAsk(Run(s, events[..n]), events[n], template, misses, before, ts);
    }
  }

  lemma LastAsk(s: System, e: Event, template: Topology, misses: nat, before: seq<Topology>, ts: seq<Topology>)
    requires Sound(s) && EventOk(e) && Proper(template)
    requires forall k :: 0 <= k < |before| ==> Proper(before[k])
    requires ts == before + if e.Request? then [e.t] else []
    requires Established(s.pool, template, MissRun(template, misses, before))
    requires e.Request? ==> !ThirdMiss(template, misses, ts, |ts| - 1)
    ensures Established(Step(s, e).pool, template, MissRun(template, misses, ts))
  {
    hide SameTopology, Proper, Sound, Step;
    StepFollows(s, e, template, MissRun(template, misses, before));
    if e.Request? {
      assert ts[..|ts| - 1] == before;
    } else {
      assert ts == before;
    }
  }

  /** The miss count never comes to three. */
  lemma {:induction false} MissesBounded(events: seq<Event>)
    requires EventsOk(events)
    ensures Sound(START) && Sound(Run(START, events)) && Run(START, events).pool.mismatches < RELEARN
    decreases |events|
  {
    hide Step, EventOk;
    if events != [] {
      MissesBounded(events[..|events| - 1]);
      RunSnoc(START, events);
      var s, e := Run(START, events[..|events| - 1]), events[|events| - 1];
      hide Run, Sound;
      StepSound(s, e);
      StepBounded(s, e);
    }
  }

  lemma StepBounded(s: System, e: Event)
    requires Sound(s) && EventOk(e) && s.pool.mismatches < RELEARN
    ensures Step(s, e).pool.mismatches < RELEARN
  {
    hide SameTopology, Proper;
  }

  /** The state after a run from the start. */
  function Reached(events: seq<Event>): (s: System)
    requires EventsOk(events)
    ensures Sound(s) && s.pool.mismatches < RELEARN
  {
    MissesBounded(events);
    Run(START, events)
  }

  /** In any reachable state a template that requests have matched changes exactly at the first
      request that is the third mismatch in a row, and then to that request's topology, whatever
      refills do in between. */
  lemma TemplateFollows(before: seq<Event>, events: seq<Event>, k: nat)
    requires EventsOk(before) && EventsOk(events) && k < |events|
    requires Reached(before).pool.template.Some? && Reached(before).pool.matches > 0
    requires var p, ts := Reached(before).pool, Asks(events[..k]);
             forall j :: 0 <= j < |ts| ==> !ThirdMiss(p.template.value, p.mismatches, ts, j)
    ensures var s := Reached(before); var p, ts := s.pool, Asks(events[..k + 1]);
            && Run(s, events[..k]).pool.template == p.template
            && Run(s, events[..k + 1]).pool.template ==
               if events[k].Request? && ThirdMiss(p.template.value, p.mismatches, ts, |ts| - 1) then Some(events[k].t)
               else p.template
  {
    hide SameTopology, Proper, EventOk, Step, Reached, Run, ThirdMiss;
    var s := Reached(before);
    var template, misses := s.pool.template.value, s.pool.mismatches;
    TemplateStays(s, events[..k], template, misses);
    assert events[..k + 1][..k] == events[..k];
    RunSnoc(s, events[..k + 1]);
    NextTemplate(Run(s, events[..k]), events[k], template, misses, Asks(events[..k]), Asks(events[..k + 1]));
  }

  lemma NextTemplate(s: System, e: Event, template: Topology, misses: nat, before: seq<Topology>, ts: seq<Topology>)
    requires Sound(s) && EventOk(e) && Proper(template)
    requires forall k :: 0 <= k < |before| ==> Proper(before[k])
    requires ts == before + if e.Request? then [e.t] else []
    requires Established(s.pool, template, MissRun(template, misses, before))
    ensures Step(s, e).pool.template ==
            if e.Request? && ThirdMiss(template, misses, ts, |ts| - 1) then Some(e.t) else Some(template)
  {
    hide SameTopology, Proper, Sound, Step;
    StepFollows(s, e, template, MissRun(template, misses, before));
    if e.Request? {
      assert ts[..|ts| - 1] == before;
    }
  }

  // ---------------------------------------------------------------- the pool fills up

  /** When a request is served from the pool: it can be pooled at all, graphs for the template are what it
      wants, and there is one. */
  lemma ServedWhen(s: System, t: Topology, memory: nat)
    requires Sound(s) && Proper(t)
    ensures var s' := Step(s, Request(t, memory)); var p := s.pool;
            var hit := !t.unpoolable && t.nodeCount > 0 && p.template.Some? && ShapeOf(t) == ShapeOf(p.template.value)
              && p.graphs != [];
            if hit then
              && s'.handed == s.handed + [Handed(p.graphs[|p.graphs| - 1], t)]
              && s'.pool.graphs == p.graphs[..|p.graphs| - 1]
            else s'.handed == s.handed
  {
    if s.pool.template.Some? {
      SameMeansAlike(t, s.pool.template.value);
    }
    assert s.handed + [] == s.handed;
    hide ShapeOf, SameTopology;
  }

  /** A request for the template's shape establishes the template, and forgets the misses so far. */
  lemma MatchEstablishes(s: System, t: Topology, memory: nat)
    requires Sound(s) && Proper(t) && !t.unpoolable && t.nodeCount > 0
    requires s.pool.template.Some? && ShapeOf(t) == ShapeOf(s.pool.template.value)
    ensures var p := Step(s, Request(t, memory)).pool;
            p.template == s.pool.template && p.matches == s.pool.matches + 1 && p.mismatches == 0
  {
    SameMeansAlike(t, s.pool.template.value);
    hide ShapeOf, SameTopology;
  }

  /** A template that nothing has matched is replaced by the first request that does not match it, and its
      graphs are disposed of. */
  lemma UnmatchedIsReplaced(s: System, t: Topology, memory: nat)
    requires Sound(s) && Proper(t) && !t.unpoolable && t.nodeCount > 0
    requires s.pool.template.Some? ==> s.pool.matches == 0 && ShapeOf(t) != ShapeOf(s.pool.template.value)
    ensures var s' := Step(s, Request(t, memory));
            s'.pool.template == Some(t) && s'.pool.graphs == [] && s'.disposed == s.disposed + s.pool.graphs
  {
    if s.pool.template.Some? {
      SameMeansAlike(t, s.pool.template.value);
    }
    hide ShapeOf, SameTopology;
  }

  /** After a request that can be pooled, with memory to spare, the pool and the refills under way are four. */
  lemma RequestCompletes(s: System, t: Topology, memory: nat)
    requires Inv(s) && Proper(t) && !t.unpoolable && t.nodeCount > 0 && memory >= 4
    ensures var p := Step(s, Request(t, memory)).pool; p.template.Some? && |p.graphs| + p.pending == 4
  {
    RequestSized(s, t, memory);
    hide SameTopology, PoolFits, AsWanted, InHandFits, EachOnce, Proper;
  }

  /** A host that does as it is asked. */
  function Willing(t: Topology): (h: Host)
    requires Proper(t)
    ensures |h.numbers| == |h.connects| == CAPACITY && Obliging(h, t)
  {
    Host(true, seq(CAPACITY, i requires 0 <= i < CAPACITY => Some(t.ids[i])), seq(CAPACITY, _ => true), true)
  }

  /** The worker's steps for `n` refills of a template. */
  function Refills(t: Topology, n: nat): (events: seq<Event>)
    requires Proper(t)
    ensures EventsOk(events)
  {
    if n == 0 then [] else [StartRefill, Build(Willing(t)), FinishRefill] + Refills(t, n - 1)
  }

  /** One refill puts one graph of the template's shape into the pool. */
  lemma OneRefill(s: System, t: Topology)
    requires Sound(s) && Sized(s) && Proper(t) && s.pool.template == Some(t)
    requires s.refill.NoRefill? && s.queued > 0
    ensures Sound(Step(s, StartRefill)) && Sound(Step(Step(s, StartRefill), Build(Willing(t))))
    ensures var s' := Step(Step(Step(s, StartRefill), Build(Willing(t))), FinishRefill);
            && Sound(s') && Sized(s') && s'.pool.template == s.pool.template && s'.refill.NoRefill?
            && s'.queued == s.queued - 1 && s'.pool.graphs == s.pool.graphs + [Graph(s.made, ShapeOf(t))]
  {
    hide Willing, Obliging, ShapeOf, Proper;
    AlikeItself(t);
    hide SameTopology;
  }

  lemma AlikeItself(t: Topology)
    requires Proper(t)
    ensures SameTopology(t, t)
  {
  }

  lemma RunThree(s: System, a: Event, b: Event, c: Event, rest: seq<Event>)
    requires Sound(s) && EventOk(a) && EventOk(b) && EventOk(c) && EventsOk(rest)
    requires Sound(Step(s, a)) && Sound(Step(Step(s, a), b)) && Sound(Step(Step(Step(s, a), b), c))
    ensures EventsOk([a, b, c] + rest)
    ensures Run(s, [a, b, c] + rest) == Run(Step(Step(Step(s, a), b), c), rest)
  {
    hide Sound, Step, EventOk, Run;
    RunOne(s, a, [b, c] + rest);
    RunOne(Step(s, a), b, [c] + rest);
    RunOne(Step(Step(s, a), b), c, rest);
    assert [a, b, c] + rest == [a] + ([b, c] + rest) && [b, c] + rest == [b] + ([c] + rest);
  }

  lemma RunOne(s: System, e: Event, rest: seq<Event>)
    requires Sound(s) && EventOk(e) && Sound(Step(s, e)) && EventsOk([e] + rest) && EventsOk(rest)
    ensures Run(s, [e] + rest) == Run(Step(s, e), rest)
  {
    hide Sound, Step, EventOk;
    assert ([e] + rest)[1..] == rest;
  }

  lemma {:induction false} RefillsFill(s: System, t: Topology)
    requires Sound(s) && Sized(s) && Proper(t) && s.pool.template == Some(t) && s.refill.NoRefill?
    ensures var s' := Run(s, Refills(t, s.queued));
            && s'.queued == 0 && s'.pool.template == Some(t) && |s'.pool.graphs| == |s.pool.graphs| + s.queued
    decreases s.queued
  {
    hide Sound, Sized, Step, Proper, Willing, ShapeOf;
    if s.queued > 0 {
      OneRefill(s, t);
      var s' := Step(Step(Step(s, StartRefill), Build(Willing(t))), FinishRefill);
      RunThree(s, StartRefill, Build(Willing(t)), FinishRefill, Refills(t, s'.queued));
      RefillsFill(s', t);
    }
  }

  /** In any reachable state in which the worker has no refill in hand: once a request has come and the worker
      has had its turns with a host that does as it is asked, the pool holds four graphs of the template. */
  lemma PoolFills(events: seq<Event>, t: Topology, memory: nat)
    requires EventsOk(events) && Reached(events).refill.NoRefill?
    requires Proper(t) && !t.unpoolable && t.nodeCount > 0 && memory >= 4
    ensures var s := Step(Reached(events), Request(t, memory));
            && Sound(s) && s.pool.template.Some? && Proper(s.pool.template.value)
            && var s' := Run(s, Refills(s.pool.template.value, s.queued));
               |s'.pool.graphs| == 4 && s'.pool.template == s.pool.template
  {
    StartInv();
    RunKeeps(START, events);
    hide Run, Step;
    var s0 := Reached(events);
    var s := Step(s0, Request(t, memory));
    RequestCompletes(s0, t, memory);
    RequestKeeps(s0, t, memory);
    RequestLeavesWorker(s0, t, memory);
    RefillsFill(s, s.pool.template.value);
  }

  lemma RequestLeavesWorker(s: System, t: Topology, memory: nat)
    requires Sound(s) && Proper(t)
    ensures Step(s, Request(t, memory)).refill == s.refill
  {
    hide SameTopology;
  }
}
