/**
  Graph planning for a build session: target roots, what each root reaches, shim safety and the
  OpenTelemetry package of each dependency (cargo-instrument/src/session.rs:171-191, 1364-1588,
  1719-1728).
 */
module Session {
  import opened Basics
  import opened Reachability

  /** A resolved dependency; kind None is a normal dependency. */
  datatype DepEdge = DepEdge(pkg: Id, kinds: seq<Option<string>>)

  /** What the planner collects from Cargo metadata. */
  datatype Metadata = Metadata(
    names: map<Id, string>, procMacros: set<Id>, executables: set<Id>, members: set<Id>, deps: map<Id, seq<DepEdge>>)

  /** `excluded` stays empty unless the dependency-only policy is configured. */
  datatype SessionPlan = SessionPlan(
    hasShimProvider: bool, shimUnsafe: set<string>, targetReachable: set<Id>, r4: map<Id, Id>, hostOnly: set<string>,
    excluded: set<Id>)

  const SHIM := "otel-shim"
  const SHIM_ALIAS := "otel_shim"
  const OTEL := "opentelemetry"

  /** `replace('-', "_")`. */
  function Normalize(name: string): (r: string)
    ensures |r| == |name| && forall i :: 0 <= i < |r| ==> r[i] == if name[i] == '-' then '_' else name[i]
  {
    seq(|name|, i requires 0 <= i < |name| => if name[i] == '-' then '_' else name[i])
  }

  // ---------------------------------------------------------------------------
  // Edges
  // ---------------------------------------------------------------------------

  /** An edge without kinds is a normal dependency. */
  predicate NormalEdge(e: DepEdge) { e.kinds == [] || None in e.kinds }

  predicate TargetEdge(e: DepEdge) { NormalEdge(e) || Some("dev") in e.kinds }

  /** The target successors of a package: normal or dev edges to packages that are no proc-macros. */
  function Targets(m: Metadata, es: seq<DepEdge>): (r: seq<Id>)
    ensures forall b :: b in r <==> exists e :: e in es && TargetEdge(e) && e.pkg == b && b !in m.procMacros
  {
    if es == [] then []
    else
      var rest := Targets(m, es[1..]);
      assert es == [es[0]] + es[1..];
      if TargetEdge(es[0]) && es[0].pkg !in m.procMacros then [es[0].pkg] + rest else rest
  }

  function AllTargets(es: seq<DepEdge>): (r: seq<Id>)
    ensures |r| == |es| && forall i :: 0 <= i < |r| ==> r[i] == es[i].pkg
  {
    seq(|es|, i requires 0 <= i < |es| => es[i].pkg)
  }

  function TargetGraph(m: Metadata): Graph { map a | a in m.deps :: Targets(m, m.deps[a]) }

  function FullGraph(m: Metadata): Graph { map a | a in m.deps :: AllTargets(m.deps[a]) }

  /** The package reaches the other over normal or dev non-proc-macro edges. */
  ghost predicate TargetReaches(m: Metadata, a: Id, b: Id) { Reaches(TargetGraph(m), a, b) }

  /** One step of reaching follows exactly the normal and dev edges, none to a proc-macro. */
  lemma TargetStepMeans(m: Metadata, a: Id, b: Id)
    ensures Step(TargetGraph(m), a, b) <==>
              && a in m.deps && b !in m.procMacros
              && exists e :: e in m.deps[a] && e.pkg == b
                             && (e.kinds == [] || None in e.kinds || Some("dev") in e.kinds)
  {
  }

  /** Dependencies of build scripts alone are not followed. */
  lemma BuildEdgesAreNotFollowed(m: Metadata, a: Id, b: Id)
    requires a in m.deps
    requires forall e :: e in m.deps[a] && e.pkg == b ==>
               e.kinds != [] && forall k :: k in e.kinds ==> k == Some("build")
    ensures !Step(TargetGraph(m), a, b)
  {
    TargetStepMeans(m, a, b);
  }

  // ---------------------------------------------------------------------------
  // Target roots
  // ---------------------------------------------------------------------------

  /** Another member depends on it over a normal edge. */
  ghost predicate InternalDependency(m: Metadata, id: Id) {
    && id in m.members
    && exists a :: a in m.members && a in m.deps && exists e :: e in m.deps[a] && e.pkg == id && NormalEdge(e)
  }

  ghost function DefaultRoots(m: Metadata): set<Id> {
    var preferred := set id | id in m.members - m.procMacros && (id in m.executables || !InternalDependency(m, id));
    if preferred != {} then preferred
    else if m.members - m.procMacros != {} then m.members - m.procMacros
    else m.names.Keys - m.procMacros
  }

  ghost function Roots(m: Metadata, selected: Option<set<Id>>): set<Id> {
    if selected.Some? && selected.value - m.procMacros != {} then selected.value - m.procMacros else DefaultRoots(m)
  }

  method InternalDependencies(m: Metadata) returns (internal: set<Id>)
    ensures forall id :: id in internal <==> InternalDependency(m, id)
  {
    internal := {};
    var left := m.members;
    while left != {}
      invariant left <= m.members
      invariant forall id :: id in internal ==> InternalDependency(m, id)
      invariant forall a, e ::
                  a in m.members - left && a in m.deps && e in m.deps[a] && e.pkg in m.members && NormalEdge(e) ==>
                    e.pkg in internal
      decreases |left|
    {
      var member :| member in left;
      if member in m.deps {
        var found := NormalMembers(m, m.deps[member]);
        internal := internal + found;
      }
      left := left - {member};
    }
  }

  method NormalMembers(m: Metadata, es: seq<DepEdge>) returns (found: set<Id>)
    ensures forall id :: id in found <==> id in m.members && exists e :: e in es && e.pkg == id && NormalEdge(e)
  {
    found := {};
    var i := 0;
    while i < |es|
      invariant 0 <= i <= |es|
      invariant forall id ::
                  id in found <==> id in m.members && exists e :: e in es[..i] && e.pkg == id && NormalEdge(e)
    {
      assert es[..i + 1] == es[..i] + [es[i]];
      if NormalEdge(es[i]) && es[i].pkg in m.members { found := found + {es[i].pkg}; }
      i := i + 1;
    }
    assert es[..i] == es;
  }

  method TargetRoots(m: Metadata, selected: Option<set<Id>>) returns (roots: set<Id>)
    ensures roots == Roots(m, selected)
  {
    hide NormalEdge;
    var internal := InternalDependencies(m);
    var standing := set id | id in m.members - m.procMacros && (id in m.executables || id !in internal);
    assert standing == set id | id in m.members - m.procMacros && (id in m.executables || !InternalDependency(m, id));
    roots := standing;
    if roots == {} { roots := m.members - m.procMacros; }
    if roots == {} { roots := m.names.Keys - m.procMacros; }
    if selected.Some? {
      var scoped := selected.value - m.procMacros;
      if scoped != {} { roots := scoped; }
    }
  }

  // ---------------------------------------------------------------------------
  // Breadth-first search
  // ---------------------------------------------------------------------------

  /** Everything seen is reached; what has left the queue has all its successors seen. */
  ghost predicate Searching(g: Graph, root: Id, seen: set<Id>, queue: seq<Id>) {
    && root in seen
    && (forall x :: x in seen ==> Reaches(g, root, x))
    && (forall x :: x in queue ==> x in seen)
    && (forall x, y :: x in seen && x !in queue && Step(g, x, y) ==> y in seen)
  }

  /** As `Searching`, while the successors of `current` are being looked at. */
  ghost predicate Visiting(g: Graph, root: Id, seen: set<Id>, queue: seq<Id>, current: Id) {
    && root in seen && current in seen
    && (forall x :: x in seen ==> Reaches(g, root, x))
    && (forall x :: x in queue ==> x in seen)
    && (forall x, y :: x in seen && x !in queue && x != current && Step(g, x, y) ==> y in seen)
  }

  lemma Dequeue(g: Graph, root: Id, seen: set<Id>, queue: seq<Id>)
    requires Searching(g, root, seen, queue) && queue != []
    ensures Visiting(g, root, seen, queue[1..], queue[0])
  {
    hide Reaches, Step;
    assert queue == [queue[0]] + queue[1..];
  }

  lemma Enqueue(g: Graph, root: Id, seen: set<Id>, queue: seq<Id>, current: Id, d: Id)
    requires Visiting(g, root, seen, queue, current) && Step(g, current, d)
    ensures Visiting(g, root, seen + {d}, queue + [d], current)
  {
    hide Reaches, Step;
    ReachesNext(g, root, current, d);
  }

  lemma Finished(g: Graph, root: Id, seen: set<Id>, queue: seq<Id>, current: Id)
    requires Visiting(g, root, seen, queue, current)
    requires forall y :: Step(g, current, y) ==> y in seen
    ensures Searching(g, root, seen, queue)
  {
    hide Reaches, Step;
  }

  ghost predicate EdgesSeen(m: Metadata, es: seq<DepEdge>, seen: set<Id>) {
    forall e :: e in es && TargetEdge(e) && e.pkg !in m.procMacros ==> e.pkg in seen
  }

  /** Look at the edges of one dequeued package. */
  method Visit(m: Metadata, root: Id, current: Id, seen0: set<Id>, queue0: seq<Id>)
    returns (seen: set<Id>, queue: seq<Id>)
    requires current in m.deps && Visiting(TargetGraph(m), root, seen0, queue0, current)
    ensures Searching(TargetGraph(m), root, seen, queue)
    ensures seen0 <= seen <= seen0 + Nodes(TargetGraph(m))
    ensures seen == seen0 ==> queue == queue0
  {
    hide Visiting, Searching, Reaches, TargetEdge, Nodes, Targets;
    ghost var g := TargetGraph(m);
    var es := m.deps[current];
    seen, queue := seen0, queue0;
    var i := 0;
    while i < |es|
      invariant 0 <= i <= |es|
      invariant Visiting(g, root, seen, queue, current)
      invariant seen0 <= seen <= seen0 + Nodes(g) && (seen == seen0 ==> queue == queue0)
      invariant EdgesSeen(m, es[..i], seen)
    {
      var e := es[i];
      assert es[..i + 1] == es[..i] + [e];
      if TargetEdge(e) && e.pkg !in m.procMacros && e.pkg !in seen {
        assert Step(g, current, e.pkg);
        Enqueue(g, root, seen, queue, current, e.pkg);
        StepStaysInNodes(g, current, e.pkg);
        seen := seen + {e.pkg};
        queue := queue + [e.pkg];
      }
      i := i + 1;
    }
    assert es[..i] == es;
    Finished(g, root, seen, queue, current);
  }

  /** The search of one root finds exactly what the root reaches. */
  method ReachableFrom(m: Metadata, root: Id) returns (seen: set<Id>)
    ensures forall x :: x in seen <==> TargetReaches(m, root, x)
  {
    hide Reaches, Targets, Nodes, Visiting, Searching, TargetGraph;
    ghost var g := TargetGraph(m);
    ghost var all := Nodes(g) + {root};
    seen := {root};
    var queue := [root];
    SearchStarts(g, root);
    while queue != []
      invariant Searching(g, root, seen, queue) && seen <= all
      decreases |all - seen|, |queue|
    {
      var current := queue[0];
      Dequeue(g, root, seen, queue);
      ghost var before := seen;
      if current in m.deps {
        seen, queue := Visit(m, root, current, seen, queue[1..]);
      } else {
        NoEntryNoStep(m, current);
        queue := queue[1..];
        Finished(g, root, seen, queue, current);
      }
      if before != seen { Shrinks(all, before, seen); }
    }
    SearchEnds(g, root, seen);
  }

  lemma SearchStarts(g: Graph, root: Id)
    ensures Searching(g, root, {root}, [root])
  {
    hide Reaches;
    ReachesItself(g, root);
  }

  lemma NoEntryNoStep(m: Metadata, a: Id)
    requires a !in m.deps
    ensures forall y :: !Step(TargetGraph(m), a, y)
  {
  }

  lemma SearchEnds(g: Graph, root: Id, seen: set<Id>)
    requires Searching(g, root, seen, [])
    ensures forall x :: x in seen <==> Reaches(g, root, x)
  {
    hide Reaches, Step;
    forall x | Reaches(g, root, x) ensures x in seen { ClosedHoldsReach(g, seen, root, x); }
  }

  // ---------------------------------------------------------------------------
  // What the plan means
  // ---------------------------------------------------------------------------

  predicate ShimPackage(m: Metadata, id: Id) { id in m.names && (m.names[id] == SHIM || m.names[id] == SHIM_ALIAS) }

  predicate OtelPackage(m: Metadata, id: Id) { id in m.names && m.names[id] == OTEL }

  predicate Named(m: Metadata, id: Id, name: string) { id in m.names && Normalize(m.names[id]) == name }

  /** The root reaches the shim. */
  ghost predicate HasShim(m: Metadata, root: Id) { exists x :: TargetReaches(m, root, x) && ShimPackage(m, x) }

  ghost predicate SomeRootHasShim(m: Metadata, roots: set<Id>) { exists root :: root in roots && HasShim(m, root) }

  /** A shim-less root reaches a package of that crate name. */
  ghost predicate UnsafeBy(m: Metadata, root: Id, name: string) {
    !HasShim(m, root) && exists x :: TargetReaches(m, root, x) && Named(m, x, name)
  }

  ghost predicate UnsafeName(m: Metadata, roots: set<Id>, name: string) {
    exists root :: root in roots && UnsafeBy(m, root, name)
  }

  ghost predicate ReachedByRoot(m: Metadata, roots: set<Id>, x: Id) {
    exists root :: root in roots && TargetReaches(m, root, x)
  }

  /** The root resolves exactly one OpenTelemetry package, namely o. */
  ghost predicate OnlyOtel(m: Metadata, root: Id, o: Id) {
    && TargetReaches(m, root, o) && OtelPackage(m, o)
    && forall x :: TargetReaches(m, root, x) && OtelPackage(m, x) ==> x == o
  }

  /** Every root that reaches d resolves exactly o, and some root does. */
  ghost predicate Agreed(m: Metadata, roots: set<Id>, d: Id, o: Id) {
    && ReachedByRoot(m, roots, d)
    && forall root :: root in roots && TargetReaches(m, root, d) ==> OnlyOtel(m, root, o)
  }

  ghost predicate NameReached(m: Metadata, roots: set<Id>, name: string) {
    exists x :: ReachedByRoot(m, roots, x) && Named(m, x, name)
  }

  ghost predicate HostOnlyName(m: Metadata, roots: set<Id>, name: string) {
    (exists x :: Named(m, x, name)) && !NameReached(m, roots, name)
  }

  ghost predicate Describes(m: Metadata, roots: set<Id>, p: SessionPlan) {
    && (p.hasShimProvider <==> SomeRootHasShim(m, roots))
    && (forall n :: n in p.shimUnsafe <==> UnsafeName(m, roots, n))
    && (forall x :: x in p.targetReachable <==> ReachedByRoot(m, roots, x))
    && (forall d, o :: d in p.r4 && p.r4[d] == o <==> Agreed(m, roots, d, o))
    && (forall n :: n in p.hostOnly <==> HostOnlyName(m, roots, n))
  }

  // ---------------------------------------------------------------------------
  // The planner
  // ---------------------------------------------------------------------------

  ghost predicate Reach(m: Metadata, root: Id, s: set<Id>) { forall x :: x in s <==> TargetReaches(m, root, x) }

  ghost predicate Tabulates(m: Metadata, roots: set<Id>, table: map<Id, set<Id>>) {
    table.Keys == roots && forall root :: root in roots ==> Reach(m, root, table[root])
  }

  lemma HasShimIsSeen(m: Metadata, root: Id, s: set<Id>)
    requires Reach(m, root, s)
    ensures HasShim(m, root) <==> exists x :: x in s && ShimPackage(m, x)
  {
    hide TargetReaches, ShimPackage;
    if HasShim(m, root) {
      var x :| TargetReaches(m, root, x) && ShimPackage(m, x);
      assert x in s;
    }
    if x :| x in s && ShimPackage(m, x) { assert TargetReaches(m, root, x); }
  }

  /** Crate names of the packages in s. */
  function NamesOf(m: Metadata, s: set<Id>): (r: set<string>)
    ensures forall n :: n in r <==> exists x :: x in s && Named(m, x, n)
  {
    var r := set x | x in s && x in m.names :: Normalize(m.names[x]);
    assert forall x :: x in s && x in m.names ==> Normalize(m.names[x]) in r;
    r
  }

  lemma UnsafeBySeen(m: Metadata, root: Id, s: set<Id>, n: string)
    requires Reach(m, root, s)
    ensures UnsafeBy(m, root, n) <==> !HasShim(m, root) && n in NamesOf(m, s)
  {
    hide TargetReaches, Named, HasShim, NamesOf;
    if UnsafeBy(m, root, n) {
      var x :| TargetReaches(m, root, x) && Named(m, x, n);
      assert x in s;
    }
    if n in NamesOf(m, s) {
      var x :| x in s && Named(m, x, n);
      assert TargetReaches(m, root, x);
    }
  }

  /** The accumulators after the roots in `done` have been searched. */
  ghost predicate Searched(m: Metadata, done: set<Id>, table: map<Id, set<Id>>, reachable: set<Id>, hasShim: bool,
                           unsafeNames: set<string>) {
    && Tabulates(m, done, table)
    && (forall x :: x in reachable <==> ReachedByRoot(m, done, x))
    && (hasShim <==> SomeRootHasShim(m, done))
    && (forall n :: n in unsafeNames <==> UnsafeName(m, done, n))
  }

  /** The per-root part of the plan: reachability, the shim provider and the shim-unsafe names. */
  method SearchRoots(m: Metadata, roots: set<Id>)
    returns (table: map<Id, set<Id>>, reachable: set<Id>, hasShim: bool, unsafeNames: set<string>)
    ensures Searched(m, roots, table, reachable, hasShim, unsafeNames)
  {
    hide TargetReaches, HasShim, UnsafeBy, NamesOf, ShimPackage, Searched;
    table, reachable, hasShim, unsafeNames := map[], {}, false, {};
    ghost var done: set<Id> := {};
    NothingSearched(m);
    var left := roots;
    while left != {}
      invariant left <= roots && done == roots - left
      invariant Searched(m, done, table, reachable, hasShim, unsafeNames)
      decreases |left|
    {
      var root :| root in left;
      var found := ReachableFrom(m, root);
      HasShimIsSeen(m, root, found);
      var rootHasShim := exists x :: x in found && ShimPackage(m, x);
      var added := if rootHasShim then {} else NamesOf(m, found);
      OneMoreRoot(m, done, root, found, table, reachable, hasShim, unsafeNames, added);
      unsafeNames := unsafeNames + added;
      hasShim := hasShim || rootHasShim;
      reachable := reachable + found;
      table := table[root := found];
      done := done + {root};
      left := left - {root};
    }
    assert done == roots;
  }

  lemma NothingSearched(m: Metadata)
    ensures Searched(m, {}, map[], {}, false, {})
  {
  }

  lemma OneMoreRoot(m: Metadata, done: set<Id>, root: Id, found: set<Id>, table: map<Id, set<Id>>, reachable: set<Id>,
                    hasShim: bool, unsafeNames: set<string>, added: set<string>)
    requires Reach(m, root, found) && Searched(m, done, table, reachable, hasShim, unsafeNames)
    requires added == if HasShim(m, root) then {} else NamesOf(m, found)
    ensures Searched(m, done + {root}, table[root := found], reachable + found, hasShim || HasShim(m, root),
                     unsafeNames + added)
  {
    hide TargetReaches, HasShim, UnsafeBy, NamesOf, Reach;
    forall n ensures n in added <==> UnsafeBy(m, root, n) { UnsafeBySeen(m, root, found, n); }
    assert root in done + {root};
    forall n ensures UnsafeName(m, done + {root}, n) <==> UnsafeName(m, done, n) || UnsafeBy(m, root, n) {}
    ReachedByOneMore(m, done, root, found);
  }

  lemma ReachedByOneMore(m: Metadata, done: set<Id>, root: Id, found: set<Id>)
    requires Reach(m, root, found)
    ensures forall x :: ReachedByRoot(m, done + {root}, x) <==> ReachedByRoot(m, done, x) || x in found
  {
    hide TargetReaches;
    assert root in done + {root};
  }

  // ---------------------------------------------------------------------------
  // The OpenTelemetry package of a dependency
  // ---------------------------------------------------------------------------

  function OtelIn(m: Metadata, s: set<Id>): set<Id> { set x | x in s && OtelPackage(m, x) }

  /** The OpenTelemetry packages resolved by the given roots together. */
  function SharedOtel(m: Metadata, table: map<Id, set<Id>>, hits: set<Id>): set<Id> {
    set root, x | root in hits && root in table && x in OtelIn(m, table[root]) :: x
  }

  lemma SingletonIsUnique<T>(s: set<T>, a: T, b: T)
    requires |s| == 1 && a in s && b in s
    ensures a == b
  {
    assert a != b ==> |s - {a}| == 0 && b in s - {a};
  }

  lemma OnlyMemberIsSingleton<T>(s: set<T>, a: T)
    requires a in s && forall x :: x in s ==> x == a
    ensures |s| == 1
  {
    assert s == {a};
  }

  lemma OnlyOtelIsSeen(m: Metadata, root: Id, s: set<Id>, o: Id)
    requires Reach(m, root, s)
    ensures OnlyOtel(m, root, o) <==> |OtelIn(m, s)| == 1 && o in OtelIn(m, s)
  {
    hide TargetReaches, OtelPackage;
    var otel := OtelIn(m, s);
    if OnlyOtel(m, root, o) { OnlyMemberIsSingleton(otel, o); }
    if |otel| == 1 && o in otel {
      forall x | TargetReaches(m, root, x) && OtelPackage(m, x) ensures x == o { SingletonIsUnique(otel, x, o); }
    }
  }

  /** The roots that reach d. */
  ghost predicate Hits(m: Metadata, roots: set<Id>, d: Id, hits: set<Id>) {
    forall root :: root in hits <==> root in roots && TargetReaches(m, root, d)
  }

  lemma AgreedIsSeen(m: Metadata, roots: set<Id>, table: map<Id, set<Id>>, d: Id, hits: set<Id>, o: Id)
    requires Tabulates(m, roots, table) && Hits(m, roots, d, hits)
    ensures Agreed(m, roots, d, o) <==>
              && hits != {} && (forall root :: root in hits ==> |OtelIn(m, table[root])| == 1)
              && |SharedOtel(m, table, hits)| == 1 && o in SharedOtel(m, table, hits)
  {
    hide TargetReaches, OtelIn, Reach, OnlyOtel;
    forall root | root in hits
      ensures OnlyOtel(m, root, o) <==> |OtelIn(m, table[root])| == 1 && o in OtelIn(m, table[root])
    {
      OnlyOtelIsSeen(m, root, table[root], o);
    }
    var shared := SharedOtel(m, table, hits);
    if Agreed(m, roots, d, o) {
      SharedIsSingleton(m, table, hits, o);
    } else if
      && hits != {} && (forall root :: root in hits ==> |OtelIn(m, table[root])| == 1)
      && |shared| == 1 && o in shared
    {
      SingletonIsShared(m, table, hits, o);
    }
  }

  lemma SharedIsSingleton(m: Metadata, table: map<Id, set<Id>>, hits: set<Id>, o: Id)
    requires hits <= table.Keys && hits != {}
    requires forall root :: root in hits ==> |OtelIn(m, table[root])| == 1 && o in OtelIn(m, table[root])
    ensures SharedOtel(m, table, hits) == {o}
  {
    hide OtelIn;
    forall x | x in SharedOtel(m, table, hits) ensures x == o {
      var root :| root in hits && x in OtelIn(m, table[root]);
      SingletonIsUnique(OtelIn(m, table[root]), x, o);
    }
    var root :| root in hits;
    assert o in OtelIn(m, table[root]);
  }

  lemma SingletonIsShared(m: Metadata, table: map<Id, set<Id>>, hits: set<Id>, o: Id)
    requires hits <= table.Keys && |SharedOtel(m, table, hits)| == 1 && o in SharedOtel(m, table, hits)
    requires forall root :: root in hits ==> |OtelIn(m, table[root])| == 1
    ensures forall root :: root in hits ==> o in OtelIn(m, table[root])
  {
    hide OtelIn;
    forall root | root in hits ensures o in OtelIn(m, table[root]) {
      var x :| x in OtelIn(m, table[root]);
      assert x in SharedOtel(m, table, hits);
      SingletonIsUnique(SharedOtel(m, table, hits), x, o);
    }
  }

  /** The agreed OpenTelemetry package of one dependency, if there is one. */
  method AgreedOtel(m: Metadata, ghost roots: set<Id>, table: map<Id, set<Id>>, d: Id) returns (r: Option<Id>)
    requires Tabulates(m, roots, table)
    ensures forall o :: r == Some(o) <==> Agreed(m, roots, d, o)
  {
    hide TargetReaches, Agreed, OtelIn, SharedOtel;
    var hits := set root | root in table && d in table[root];
    assert Hits(m, roots, d, hits);
    forall o ensures Agreed(m, roots, d, o) <==>
              && hits != {} && (forall root :: root in hits ==> |OtelIn(m, table[root])| == 1)
              && |SharedOtel(m, table, hits)| == 1 && o in SharedOtel(m, table, hits) {
      AgreedIsSeen(m, roots, table, d, hits, o);
    }
    if hits == {} || exists root :: root in hits && |OtelIn(m, table[root])| != 1 { return None; }
    var shared := SharedOtel(m, table, hits);
    if |shared| != 1 { return None; }
    var otel :| otel in shared;
    forall o | o in shared ensures o == otel { SingletonIsUnique(shared, o, otel); }
    r := Some(otel);
  }

  /** The whole mapping, over every package some root reaches. */
  method AgreedPackages(m: Metadata, ghost roots: set<Id>, table: map<Id, set<Id>>, reachable: set<Id>)
    returns (r4: map<Id, Id>)
    requires Tabulates(m, roots, table) && forall x :: x in reachable <==> ReachedByRoot(m, roots, x)
    ensures forall d, o :: d in r4 && r4[d] == o <==> Agreed(m, roots, d, o)
  {
    hide TargetReaches, OnlyOtel, Tabulates, ReachedByRoot;
    r4 := map[];
    var left := reachable;
    while left != {}
      invariant left <= reachable
      invariant forall d :: d in r4 ==> d in reachable - left
      invariant forall d, o :: d in reachable - left ==> (d in r4 && r4[d] == o <==> Agreed(m, roots, d, o))
      decreases |left|
    {
      var d :| d in left;
      var otel := AgreedOtel(m, roots, table, d);
      if otel.Some? { r4 := r4[d := otel.value]; }
      left := left - {d};
    }
  }

  /** `from_metadata_json_scoped`, from the collected metadata on. */
  method PlanSession(m: Metadata, selected: Option<set<Id>>) returns (p: SessionPlan)
    ensures Describes(m, Roots(m, selected), p) && p.excluded == {}
    ensures p.hasShimProvider <==>
              exists root, x ::
                && root in Roots(m, selected) && TargetReaches(m, root, x)
                && x in m.names && m.names[x] in {"otel-shim", "otel_shim"}
    ensures forall d :: d in p.r4 ==> p.r4[d] in m.names && m.names[p.r4[d]] == "opentelemetry"
  {
    hide TargetReaches, Agreed, UnsafeName, SomeRootHasShim, NamesOf, Tabulates, ReachedByRoot, Named, Roots;
    var roots := TargetRoots(m, selected);
    var table, reachable, hasShim, unsafeNames := SearchRoots(m, roots);
    var r4 := AgreedPackages(m, roots, table, reachable);
    var reachedNames := NamesOf(m, reachable);
    var hostOnly := NamesOf(m, m.names.Keys) - reachedNames;
    forall n ensures n in hostOnly <==> HostOnlyName(m, roots, n) { NamesAreKeys(m, n); }
    p := SessionPlan(hasShim, unsafeNames, reachable, r4, hostOnly, {});
    PlanGoesByName(m, roots, p);
  }

  /** The shim and OpenTelemetry are packages of these names. */
  lemma PlanGoesByName(m: Metadata, roots: set<Id>, p: SessionPlan)
    requires Describes(m, roots, p)
    ensures p.hasShimProvider <==>
              exists root, x ::
                && root in roots && TargetReaches(m, root, x)
                && x in m.names && m.names[x] in {"otel-shim", "otel_shim"}
    ensures forall d :: d in p.r4 ==> p.r4[d] in m.names && m.names[p.r4[d]] == "opentelemetry"
  {
    hide TargetReaches, UnsafeName, HostOnlyName;
    if root, x :|
         root in roots && TargetReaches(m, root, x) && x in m.names && m.names[x] in {"otel-shim", "otel_shim"}
    {
      assert ShimPackage(m, x) && HasShim(m, root);
    }
    if root :| root in roots && HasShim(m, root) { var x :| TargetReaches(m, root, x) && ShimPackage(m, x); }
    forall d | d in p.r4 ensures p.r4[d] in m.names && m.names[p.r4[d]] == "opentelemetry" {
      assert Agreed(m, roots, d, p.r4[d]);
      var root :| root in roots && TargetReaches(m, root, d);
      assert OnlyOtel(m, root, p.r4[d]);
    }
  }

  lemma NamesAreKeys(m: Metadata, n: string)
    ensures (exists x :: Named(m, x, n)) <==> n in NamesOf(m, m.names.Keys)
  {
    hide NamesOf;
    if x :| Named(m, x, n) { assert x in m.names.Keys; }
  }

  // ---------------------------------------------------------------------------
  // The default roots cover the workspace
  // ---------------------------------------------------------------------------

  /** A member that is no proc-macro depends on another member over a normal edge. */
  ghost predicate MemberEdge(m: Metadata, a: Id, b: Id) {
    a in m.members - m.procMacros && a in m.deps && exists e :: e in m.deps[a] && e.pkg == b && NormalEdge(e)
  }

  /** Cargo's rule that normal dependencies between packages are acyclic, as a rank of the members. */
  ghost predicate Ranked(m: Metadata, rank: Id -> nat) { forall a, b :: MemberEdge(m, a, b) ==> rank(a) < rank(b) }

  lemma MemberEdgeIsStep(m: Metadata, a: Id, b: Id)
    requires MemberEdge(m, a, b) && b !in m.procMacros
    ensures Step(TargetGraph(m), a, b)
  {
    var e :| e in m.deps[a] && e.pkg == b && NormalEdge(e);
    assert TargetEdge(e);
  }

  /** No default root, and every member that depends on it is a proc-macro or itself there for proc-macros only. */
  ghost predicate OnlyForProcMacros(m: Metadata, rank: Id -> nat, x: Id)
    requires Ranked(m, rank)
    decreases rank(x)
  {
    x !in DefaultRoots(m) && forall a :: MemberEdge(m, a, x) ==> OnlyForProcMacros(m, rank, a)
  }

  /** A workspace member is reached from a default root unless it is there for proc-macros only. */
  lemma {:induction false} MembersAreCovered(m: Metadata, rank: Id -> nat, x: Id)
    requires Ranked(m, rank) && x in m.members - m.procMacros && !OnlyForProcMacros(m, rank, x)
    ensures ReachedByRoot(m, DefaultRoots(m), x)
    decreases rank(x)
  {
    hide Reaches, TargetGraph, Step, MemberEdge, DefaultRoots;
    ReachesItself(TargetGraph(m), x);
    if x !in DefaultRoots(m) {
      var a :| MemberEdge(m, a, x) && !OnlyForProcMacros(m, rank, a);
      EdgeStartsInMembers(m, a, x);
      MembersAreCovered(m, rank, a);
      var root :| root in DefaultRoots(m) && TargetReaches(m, root, a);
      MemberEdgeIsStep(m, a, x);
      ReachesNext(TargetGraph(m), root, a, x);
    }
  }

  /** A proc-macro of the workspace depends on y over a normal edge. */
  ghost predicate ProcMacroNeeds(m: Metadata, macro: Id, y: Id) {
    && macro in m.members * m.procMacros && macro in m.deps
    && exists e :: e in m.deps[macro] && e.pkg == y && NormalEdge(e)
  }

  lemma WhoDependsOn(m: Metadata, x: Id)
    requires x in m.members - m.procMacros && x !in DefaultRoots(m)
    ensures exists a :: MemberEdge(m, a, x) || ProcMacroNeeds(m, a, x)
  {
    assert InternalDependency(m, x);
    var a :| a in m.members && a in m.deps && exists e :: e in m.deps[a] && e.pkg == x && NormalEdge(e);
    assert MemberEdge(m, a, x) || ProcMacroNeeds(m, a, x);
  }

  /** Such a member is indeed needed by a proc-macro, directly or through other members. */
  lemma {:induction false} LeftOutServesProcMacros(m: Metadata, rank: Id -> nat, x: Id)
    requires Ranked(m, rank) && x in m.members - m.procMacros && OnlyForProcMacros(m, rank, x)
    ensures exists macro, y :: ProcMacroNeeds(m, macro, y) && TargetReaches(m, y, x)
    decreases rank(x)
  {
    hide Reaches, TargetGraph, Step, MemberEdge, DefaultRoots, ProcMacroNeeds;
    WhoDependsOn(m, x);
    var a :| MemberEdge(m, a, x) || ProcMacroNeeds(m, a, x);
    if ProcMacroNeeds(m, a, x) {
      ReachesItself(TargetGraph(m), x);
    } else {
      EdgeStartsInMembers(m, a, x);
      LeftOutServesProcMacros(m, rank, a);
      var macro, y :| ProcMacroNeeds(m, macro, y) && TargetReaches(m, y, a);
      MemberEdgeIsStep(m, a, x);
      ReachesNext(TargetGraph(m), y, a, x);
    }
  }

  lemma EdgeStartsInMembers(m: Metadata, a: Id, b: Id)
    requires MemberEdge(m, a, b)
    ensures a in m.members - m.procMacros
  {
  }
}
