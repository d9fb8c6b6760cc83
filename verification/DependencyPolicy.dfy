/**
  Which packages a dependency-only build leaves alone: the workspace itself and everything the
  telemetry and executor packages are built from (cargo-instrument/src/session.rs:168-191).

  The configuration is computed once from the dependency graph by a work list; what
  the telemetry and executor packages are built from is closed under dependencies, so nothing they
  call is rewritten.
 */
module DependencyPolicy {
  import opened Basics
  import opened Reachability
  import opened Session

  /** opentelemetry*, otel-shim and tokio. */
  predicate Seed(m: Metadata, id: Id) {
    id in m.names && (StartsWith(m.names[id], "opentelemetry") || m.names[id] == SHIM || m.names[id] == "tokio")
  }

  ghost function Seeds(m: Metadata): set<Id> { set id | id in m.names && Seed(m, id) }

  /** Reached from a seed over edges of any kind. */
  ghost predicate InClosure(m: Metadata, x: Id) { ReachedFrom(FullGraph(m), Seeds(m), x) }

  // ---------------------------------------------------------------------------
  // A worklist that checks for duplicates only when an item is taken out
  // ---------------------------------------------------------------------------

  /** Seeds and successors of visited packages are visited or waiting, and all of them are reached. */
  ghost predicate Working(g: Graph, seeds: set<Id>, visited: set<Id>, queue: seq<Id>) {
    && (forall x :: x in visited || x in queue ==> ReachedFrom(g, seeds, x))
    && (forall x :: x in seeds ==> x in visited || x in queue)
    && (forall x, y :: x in visited && Step(g, x, y) ==> y in visited || y in queue)
  }

  lemma WorkStarts(g: Graph, seeds: set<Id>, queue: seq<Id>)
    requires forall x :: x in queue <==> x in seeds
    ensures Working(g, seeds, {}, queue)
  {
    hide Reaches;
    forall x | x in seeds ensures ReachedFrom(g, seeds, x) { ReachesItself(g, x); }
  }

  lemma DropDuplicate(g: Graph, seeds: set<Id>, visited: set<Id>, queue: seq<Id>)
    requires Working(g, seeds, visited, queue) && queue != [] && queue[|queue| - 1] in visited
    ensures Working(g, seeds, visited, queue[..|queue| - 1])
  {
    hide Reaches, Step, ReachedFrom;
    assert queue == queue[..|queue| - 1] + [queue[|queue| - 1]];
  }

  lemma TakeNext(g: Graph, seeds: set<Id>, visited: set<Id>, queue: seq<Id>, next: seq<Id>)
    requires Working(g, seeds, visited, queue) && queue != []
    requires forall y :: y in next <==> Step(g, queue[|queue| - 1], y)
    ensures Working(g, seeds, visited + {queue[|queue| - 1]}, queue[..|queue| - 1] + next)
  {
    hide Reaches, Step;
    var id := queue[|queue| - 1];
    assert queue == queue[..|queue| - 1] + [id] && id in queue;
    var a :| a in seeds && Reaches(g, a, id);
    forall y | y in next ensures ReachedFrom(g, seeds, y) { ReachesNext(g, a, id, y); }
  }

  lemma WorkEnds(g: Graph, seeds: set<Id>, visited: set<Id>)
    requires Working(g, seeds, visited, [])
    ensures forall x :: x in visited <==> ReachedFrom(g, seeds, x)
  {
    hide Reaches, Step;
    forall x | ReachedFrom(g, seeds, x) ensures x in visited {
      var a :| a in seeds && Reaches(g, a, x);
      ClosedHoldsReach(g, visited, a, x);
    }
  }

  lemma ReachedAreNodes(g: Graph, seeds: set<Id>, x: Id)
    requires ReachedFrom(g, seeds, x)
    ensures x in seeds + Nodes(g)
  {
    hide Reaches;
    var a :| a in seeds && Reaches(g, a, x);
    assert Closed(g, seeds + Nodes(g));
    ClosedHoldsReach(g, seeds + Nodes(g), a, x);
  }

  /** The packages excluded from wrapping in a dependency-only build. */
  class WrapperPolicy {
    const metadata: Metadata
    var excluded: set<Id>

    constructor (m: Metadata)
      ensures metadata == m && excluded == {}
    {
      metadata := m;
      excluded := {};
    }

    method SeedList() returns (queue: seq<Id>)
      ensures forall x :: x in queue <==> x in Seeds(metadata)
    {
      queue := [];
      var left := metadata.names.Keys;
      while left != {}
        invariant left <= metadata.names.Keys
        invariant forall x :: x in queue <==> x in metadata.names.Keys - left && Seed(metadata, x)
        decreases |left|
      {
        var id :| id in left;
        if Seed(metadata, id) { queue := queue + [id]; }
        left := left - {id};
      }
    }

    /** `configure_dependency_only_policy`: the workspace and the closure of the seeds, whatever was excluded before. */
    method Configure()
      modifies this
      ensures forall x :: x in excluded <==> x in metadata.members || InClosure(metadata, x)
      ensures forall x :: x in excluded <==>
                || x in metadata.members
                || exists seed ::
                     && seed in metadata.names
                     && ("opentelemetry" <= metadata.names[seed] || metadata.names[seed] in {"otel-shim", "tokio"})
                     && Reaches(FullGraph(metadata), seed, x)
    {
      hide Reaches, ReachedFrom, Working, Nodes, FullGraph, Seed, Seeds, InClosure;
      ghost var g := FullGraph(metadata);
      ghost var seeds := Seeds(metadata);
      ghost var all := seeds + Nodes(g);
      excluded := metadata.members;
      var queue := SeedList();
      var visited := {};
      WorkStarts(g, seeds, queue);
      while queue != []
        invariant Working(g, seeds, visited, queue) && visited <= all
        invariant excluded == metadata.members + visited
        decreases |all - visited|, |queue|
      {
        var id := queue[|queue| - 1];
        var rest := queue[..|queue| - 1];
        if id in visited {
          DropDuplicate(g, seeds, visited, queue);
          queue := rest;
        } else {
          var next := if id in metadata.deps then AllTargets(metadata.deps[id]) else [];
          Advances(metadata, seeds, visited, queue, next);
          UnionAssociates(metadata.members, visited, {id});
          visited := visited + {id};
          excluded := excluded + {id};
          queue := rest + next;
        }
      }
      WorkEnds(g, seeds, visited);
      assert forall x :: x in visited <==> InClosure(metadata, x) by { ClosureIs(metadata, visited); }
      ExcludedMeans(metadata, excluded);
    }
  }

  lemma ClosureIs(m: Metadata, visited: set<Id>)
    requires forall x :: x in visited <==> ReachedFrom(FullGraph(m), Seeds(m), x)
    ensures forall x :: x in visited <==> InClosure(m, x)
  {
    hide ReachedFrom, FullGraph, Seeds;
  }

  /** The same by the names of the packages it starts from. */
  lemma ExcludedMeans(m: Metadata, excluded: set<Id>)
    requires forall x :: x in excluded <==> x in m.members || InClosure(m, x)
    ensures forall x :: x in excluded <==>
              || x in m.members
              || exists seed ::
                   && seed in m.names && ("opentelemetry" <= m.names[seed] || m.names[seed] in {"otel-shim", "tokio"})
                   && Reaches(FullGraph(m), seed, x)
  {
    hide Reaches, FullGraph;
  }

  lemma UnionAssociates<T>(a: set<T>, b: set<T>, c: set<T>)
    ensures (a + b) + c == a + (b + c)
  {
  }

  /** Taking out a package that was not visited yet. */
  lemma Advances(m: Metadata, seeds: set<Id>, visited: set<Id>, queue: seq<Id>, next: seq<Id>)
    requires Working(FullGraph(m), seeds, visited, queue) && visited <= seeds + Nodes(FullGraph(m))
    requires queue != [] && queue[|queue| - 1] !in visited
    requires var id := queue[|queue| - 1]; next == if id in m.deps then AllTargets(m.deps[id]) else []
    ensures var id := queue[|queue| - 1];
            var all := seeds + Nodes(FullGraph(m));
            && Working(FullGraph(m), seeds, visited + {id}, queue[..|queue| - 1] + next)
            && visited + {id} <= all && |all - (visited + {id})| < |all - visited|
  {
    hide Reaches, ReachedFrom, Working, Nodes, FullGraph;
    var id := queue[|queue| - 1];
    WaitingIsReached(FullGraph(m), seeds, visited, queue);
    ReachedAreNodes(FullGraph(m), seeds, id);
    FewerLeft(seeds + Nodes(FullGraph(m)), visited, id);
    NextAreSteps(m, id, next);
    TakeNext(FullGraph(m), seeds, visited, queue, next);
  }

  lemma WaitingIsReached(g: Graph, seeds: set<Id>, visited: set<Id>, queue: seq<Id>)
    requires Working(g, seeds, visited, queue) && queue != []
    ensures ReachedFrom(g, seeds, queue[|queue| - 1])
  {
    hide ReachedFrom, Step;
    assert queue[|queue| - 1] in queue;
  }

  lemma NextAreSteps(m: Metadata, id: Id, next: seq<Id>)
    requires next == if id in m.deps then AllTargets(m.deps[id]) else []
    ensures forall y :: y in next <==> Step(FullGraph(m), id, y)
  {
  }

  /**
    In a dependency-only build no package the shim or the telemetry packages are built from is
    wrapped, so a wrapped crate never sits below its own instrumentation.
   */
  lemma ExcludedIsClosed(m: Metadata, x: Id, y: Id)
    requires InClosure(m, x) && Step(FullGraph(m), x, y)
    ensures InClosure(m, y)
  {
    hide Reaches, FullGraph, Step;
    var a :| a in Seeds(m) && Reaches(FullGraph(m), a, x);
    ReachesNext(FullGraph(m), a, x, y);
  }
}
