/**
  Passing the shim gate and linking the shim
  (cargo-instrument/src/session.rs:1464-1508, cargo-instrument/src/wrapper.rs:346-358).
 */
module Linking {
  import opened Basics
  import opened Reachability
  import opened Session
  import opened DependencyPolicy
  import opened LinkSafety

  // The session planner follows dev edges of every package it reaches, knows packages by name and looks
  // at target roots. Cargo links dev dependencies only into the tests of the package that declares them,
  // a library may be named unlike its package, and proc-macros and build scripts are linked too.

  // ---------------------------------------------------------------------------
  // What is linked
  // ---------------------------------------------------------------------------

  /** Normal edges, and dev edges where they are linked; proc-macros run in the compiler. */
  predicate LinkEdge(m: Metadata, e: DepEdge, dev: bool) {
    (NormalEdge(e) || (dev && Some("dev") in e.kinds)) && e.pkg !in m.procMacros
  }

  function LinkTargets(m: Metadata, es: seq<DepEdge>, dev: bool): (r: seq<Id>)
    ensures forall b :: b in r <==> exists e :: e in es && LinkEdge(m, e, dev) && e.pkg == b
  {
    if es == [] then []
    else
      assert es == [es[0]] + es[1..];
      (if LinkEdge(m, es[0], dev) then [es[0].pkg] else []) + LinkTargets(m, es[1..], dev)
  }

  /** What is linked into the artifacts of a package; its own dev edges count for its tests. */
  function LinkGraph(m: Metadata, owner: Id, tests: bool): Graph {
    map a | a in m.deps :: LinkTargets(m, m.deps[a], tests && a == owner)
  }

  /** What Cargo links: the artifacts of a target root, a proc-macro, the build script of a package. */
  datatype Linker = Root(owner: Id) | ProcMacro(owner: Id) | BuildScript(owner: Id)

  /** A build script starts from the build dependencies of its package. */
  ghost predicate BuildNeeds(m: Metadata, owner: Id, b: Id) {
    owner in m.deps && exists e :: e in m.deps[owner] && Some("build") in e.kinds && e.pkg == b && b !in m.procMacros
  }

  ghost predicate Links(m: Metadata, tests: bool, l: Linker, x: Id) {
    if l.BuildScript? then exists b :: BuildNeeds(m, l.owner, b) && Reaches(LinkGraph(m, l.owner, false), b, x)
    else Reaches(LinkGraph(m, l.owner, tests), l.owner, x)
  }

  ghost predicate LinksShim(m: Metadata, tests: bool, l: Linker) {
    exists x :: Links(m, tests, l, x) && ShimPackage(m, x)
  }

  /** The roots and, among the host artifacts, those the build makes. */
  predicate IsLinked(roots: set<Id>, hosts: set<Linker>, l: Linker) { if l.Root? then l.owner in roots else l in hosts }

  /** Some artifact links the package without the shim. */
  ghost predicate LinkFails(m: Metadata, roots: set<Id>, hosts: set<Linker>, tests: bool, pkg: Id) {
    exists l :: IsLinked(roots, hosts, l) && Links(m, tests, l, pkg) && !LinksShim(m, tests, l)
  }

  lemma {:induction false} LinkPathIsTargetPath(m: Metadata, owner: Id, tests: bool, p: seq<Id>)
    requires IsPath(LinkGraph(m, owner, tests), p)
    ensures IsPath(TargetGraph(m), p)
  {
    hide LinkTargets, Targets;
    forall i | 0 <= i < |p| - 1 ensures Step(TargetGraph(m), p[i], p[i + 1]) {
      assert Step(LinkGraph(m, owner, tests), p[i], p[i + 1]);
      var e :| e in m.deps[p[i]] && LinkEdge(m, e, tests && p[i] == owner) && e.pkg == p[i + 1];
      assert TargetEdge(e);
    }
  }

  /** What a root links it also reaches. */
  lemma LinkedIsReached(m: Metadata, tests: bool, root: Id, x: Id)
    requires Links(m, tests, Root(root), x)
    ensures TargetReaches(m, root, x)
  {
    hide IsPath, LinkGraph, TargetGraph;
    var p :| Joins(LinkGraph(m, root, tests), p, root, x);
    LinkPathIsTargetPath(m, root, tests, p);
    assert Joins(TargetGraph(m), p, root, x);
  }

  // ---------------------------------------------------------------------------
  // When trampolines link
  // ---------------------------------------------------------------------------

  /** The planner counts on the shim of this root, but the linker does not find it. */
  ghost predicate OnlyReachesShim(m: Metadata, tests: bool, root: Id) {
    HasShim(m, root) && !LinksShim(m, tests, Root(root))
  }

  /**
    The gate, asked for that crate name, misses that this artifact links the package without the shim:
    the root reaches the shim, the root is shim-less but the package has another name, or it is no root.
   */
  ghost predicate Misses(m: Metadata, tests: bool, l: Linker, pkg: Id, name: string) {
    if l.Root? then OnlyReachesShim(m, tests, l.owner) || (!HasShim(m, l.owner) && !Named(m, pkg, name))
    else !LinksShim(m, tests, l)
  }

  ghost predicate Missed(m: Metadata, roots: set<Id>, hosts: set<Linker>, tests: bool, pkg: Id, name: string) {
    exists l :: IsLinked(roots, hosts, l) && Links(m, tests, l, pkg) && Misses(m, tests, l, pkg, name)
  }

  lemma ShimlessRootsLackIt(m: Metadata, tests: bool, root: Id)
    requires !HasShim(m, root)
    ensures !LinksShim(m, tests, Root(root))
  {
    hide TargetReaches, Links;
    if x :| Links(m, tests, Root(root), x) && ShimPackage(m, x) { LinkedIsReached(m, tests, root, x); }
  }

  lemma OpenGateMisses(m: Metadata, roots: set<Id>, tests: bool, l: Linker, pkg: Id, name: string)
    requires GateOpen(m, roots, name) && (l.Root? ==> l.owner in roots) && Links(m, tests, l, pkg)
    ensures !LinksShim(m, tests, l) <==> Misses(m, tests, l, pkg, name)
  {
    hide TargetReaches, Links, LinksShim, HasShim, Named, SomeRootHasShim;
    if l.Root? {
      LinkedIsReached(m, tests, l.owner, pkg);
      if !HasShim(m, l.owner) { ShimlessRootsLackIt(m, tests, l.owner); }
    }
  }

  /** A crate of package `pkg` with trampolines fails to link exactly when the gate misses an artifact. */
  lemma TrampolinesLinkExactly(m: Metadata, selected: Option<set<Id>>, hosts: set<Linker>, tests: bool, p: SessionPlan,
                               u: Unit, mode: Mode, native: Lookup, pkg: Id)
    requires Describes(m, Roots(m, selected), p)
    requires u.role != Application && ChooseEmitter(p, u, mode, native) == Trampoline
    ensures LinkFails(m, Roots(m, selected), hosts, tests, pkg) <==>
              Missed(m, Roots(m, selected), hosts, tests, pkg, Normalize(u.crateName))
  {
    hide Links, LinksShim, Misses, Describes, Roots, Normalize, GateOpen, Skipped, Declined;
    var roots := Roots(m, selected);
    var name := Normalize(u.crateName);
    TrampolinesReachShim(m, selected, p, u, mode, native);
    assert GateOpen(m, roots, name) by { GateIsOpen(m, roots, name); }
    forall l | IsLinked(roots, hosts, l) && Links(m, tests, l, pkg)
      ensures !LinksShim(m, tests, l) <==> Misses(m, tests, l, pkg, name)
    {
      OpenGateMisses(m, roots, tests, l, pkg, name);
    }
  }

  lemma GateIsOpen(m: Metadata, roots: set<Id>, name: string)
    requires SomeRootHasShim(m, roots)
    requires forall root, x :: root in roots && TargetReaches(m, root, x) && Named(m, x, name) ==> HasShim(m, root)
    ensures GateOpen(m, roots, name)
  {
    hide TargetReaches, HasShim, Named;
  }

  /** Every root that reaches the shim links it, and so does every host artifact that links the package. */
  ghost predicate ShimIsLinked(m: Metadata, roots: set<Id>, hosts: set<Linker>, tests: bool, pkg: Id) {
    && (forall root :: root in roots ==> !OnlyReachesShim(m, tests, root))
    && (forall l :: l in hosts && Links(m, tests, l, pkg) ==> LinksShim(m, tests, l))
  }

  /** Then a crate named after its package links with trampolines. */
  lemma LinkedShimSuffices(m: Metadata, selected: Option<set<Id>>, hosts: set<Linker>, tests: bool, p: SessionPlan,
                           u: Unit, mode: Mode, native: Lookup, pkg: Id)
    requires Describes(m, Roots(m, selected), p) && ShimIsLinked(m, Roots(m, selected), hosts, tests, pkg)
    requires u.role != Application && ChooseEmitter(p, u, mode, native) == Trampoline
    requires Named(m, pkg, Normalize(u.crateName))
    ensures !LinkFails(m, Roots(m, selected), hosts, tests, pkg)
  {
    hide Links, LinksShim, OnlyReachesShim, LinkFails, Describes, Roots, Normalize, Named, ChooseEmitter;
    TrampolinesLinkExactly(m, selected, hosts, tests, p, u, mode, native, pkg);
  }

  // ---------------------------------------------------------------------------
  // When the gate fails
  // ---------------------------------------------------------------------------

  /** The library of a package in its default form: local, with something to instrument and nothing against it. */
  function Library(pkg: Id, name: string): Unit {
    Unit(name, Some(pkg), {pkg}, LocalPathDependency, true, true, false, false, false, false, false, false)
  }

  const DEFAULT := Mode(false, false, false, false)

  /** The library, compiled under that crate name, gets trampolines and does not link. */
  ghost predicate GateFails(m: Metadata, roots: set<Id>, hosts: set<Linker>, tests: bool, p: SessionPlan, pkg: Id,
                            name: string) {
    && ChooseEmitter(p, Library(pkg, name), DEFAULT, NotMapped) == Trampoline
    && LinkFails(m, roots, hosts, tests, pkg)
  }

  /** The library is looked at: a root reaches it, its name is not host-only and no tool's. */
  ghost predicate LookedAt(m: Metadata, roots: set<Id>, pkg: Id, name: string) {
    ReachedByRoot(m, roots, pkg) && !HostOnlyName(m, roots, Normalize(name)) && !TelemetryOrTool(name)
  }

  lemma LookedAtMeans(m: Metadata, roots: set<Id>, pkg: Id, name: string)
    ensures LeftAlone(m, roots, Library(pkg, name), DEFAULT) <==> !LookedAt(m, roots, pkg, name)
  {
    hide ReachedByRoot, HostOnlyName, TelemetryOrTool, Normalize, InClosure;
    assert pkg in Library(pkg, name).within;
  }

  /**
    The gate fails on a library exactly when the library is looked at, the gate is open for its name,
    and an artifact is missed.
   */
  lemma GateFailsExactly(m: Metadata, selected: Option<set<Id>>, hosts: set<Linker>, tests: bool, p: SessionPlan,
                         pkg: Id, name: string)
    requires Describes(m, Roots(m, selected), p) && p.excluded == {}
    ensures GateFails(m, Roots(m, selected), hosts, tests, p, pkg, name) <==>
              && LookedAt(m, Roots(m, selected), pkg, name) && GateOpen(m, Roots(m, selected), Normalize(name))
              && Missed(m, Roots(m, selected), hosts, tests, pkg, Normalize(name))
  {
    hide ChooseEmitter, Describes, Roots, Normalize, GateOpen, LookedAt, LeftAlone, LinkFails, Missed, InClosure;
    var u := Library(pkg, name);
    TrampolinesExactly(m, selected, p, u, DEFAULT, NotMapped);
    LookedAtMeans(m, Roots(m, selected), pkg, name);
    if ChooseEmitter(p, u, DEFAULT, NotMapped) == Trampoline {
      TrampolinesLinkExactly(m, selected, hosts, tests, p, u, DEFAULT, NotMapped, pkg);
    }
  }

  // ---------------------------------------------------------------------------
  // Three inputs on which the gate fails
  // ---------------------------------------------------------------------------

  const NORMAL: seq<Option<string>> := [None]

  /** A normal dependency is reached and linked. */
  lemma DirectlyLinked(m: Metadata, owner: Id, tests: bool, b: Id)
    requires owner in m.deps && DepEdge(b, NORMAL) in m.deps[owner] && b !in m.procMacros
    ensures TargetReaches(m, owner, b) && Reaches(LinkGraph(m, owner, tests), owner, b)
    ensures Step(TargetGraph(m), owner, b)
  {
    hide Reaches;
    var e := DepEdge(b, NORMAL);
    assert NormalEdge(e) && TargetEdge(e) && LinkEdge(m, e, tests);
    ReachesItself(TargetGraph(m), owner);
    ReachesItself(LinkGraph(m, owner, tests), owner);
    ReachesNext(TargetGraph(m), owner, owner, b);
    ReachesNext(LinkGraph(m, owner, tests), owner, owner, b);
  }

  /** No target edge leaves s. */
  predicate TargetsWithin(m: Metadata, s: set<Id>) {
    forall a :: a in s && a in m.deps ==>
      forall e :: e in m.deps[a] && TargetEdge(e) && e.pkg !in m.procMacros ==> e.pkg in s
  }

  lemma ReachesWithin(m: Metadata, root: Id, s: set<Id>)
    requires root in s && TargetsWithin(m, s) && forall x :: x in s ==> !ShimPackage(m, x)
    ensures !HasShim(m, root)
  {
    hide Reaches, TargetEdge;
    assert Closed(TargetGraph(m), s);
    if x :| TargetReaches(m, root, x) && ShimPackage(m, x) { ClosedHoldsReach(TargetGraph(m), s, root, x); }
  }

  /** No linked edge leaves s. */
  predicate LinksAreWithin(m: Metadata, owner: Id, tests: bool, s: set<Id>) {
    forall a :: a in s && a in m.deps ==>
      forall e :: e in m.deps[a] && LinkEdge(m, e, tests && a == owner) ==> e.pkg in s
  }

  lemma LinksWithin(m: Metadata, l: Linker, tests: bool, s: set<Id>)
    requires !l.BuildScript? && l.owner in s && LinksAreWithin(m, l.owner, tests, s)
    requires forall x :: x in s ==> !ShimPackage(m, x)
    ensures !LinksShim(m, tests, l)
  {
    hide Reaches, LinkEdge;
    assert Closed(LinkGraph(m, l.owner, tests), s);
    if x :| Links(m, tests, l, x) && ShimPackage(m, x) {
      ClosedHoldsReach(LinkGraph(m, l.owner, tests), s, l.owner, x);
    }
  }

  /** The gate fails, seen from the graph: the crate has one root or package to answer for it. */
  lemma FailsOn(m: Metadata, hosts: set<Linker>, tests: bool, p: SessionPlan, root: Id, l: Linker, pkg: Id,
                name: string)
    requires Describes(m, Roots(m, None), p) && p.excluded == {}
    requires root in Roots(m, None) && HasShim(m, root) && TargetReaches(m, root, pkg)
    requires !TelemetryOrTool(name)
    requires forall r, x ::
               r in Roots(m, None) && TargetReaches(m, r, x) && Named(m, x, Normalize(name)) ==> HasShim(m, r)
    requires Named(m, pkg, Normalize(name)) || forall x :: !Named(m, x, Normalize(name))
    requires IsLinked(Roots(m, None), hosts, l) && Links(m, tests, l, pkg) && !LinksShim(m, tests, l)
    ensures GateFails(m, Roots(m, None), hosts, tests, p, pkg, name)
  {
    hide TargetReaches, HasShim, Named, Links, LinksShim, Roots, Normalize, ChooseEmitter, Describes, Misses,
         TelemetryOrTool;
    var roots := Roots(m, None);
    assert ReachedByRoot(m, roots, pkg);
    assert SomeRootHasShim(m, roots);
    GateIsOpen(m, roots, Normalize(name));
    OpenGateMisses(m, roots, tests, l, pkg, Normalize(name));
    GateFailsExactly(m, None, hosts, tests, p, pkg, name);
  }

  /** A binary that depends on a library whose tests use the shim. */
  const DEV_SHIM := Metadata(
    map["app" := "app", "core" := "core", "shim" := SHIM], {}, {"app"}, {"app", "core"},
    map["app" := [DepEdge("core", NORMAL)], "core" := [DepEdge("shim", [Some("dev")])]])

  lemma DevShimRoots()
    ensures Roots(DEV_SHIM, None) == {"app"}
  {
    var m := DEV_SHIM;
    assert InternalDependency(m, "core") by {
      var e := DepEdge("core", NORMAL);
      assert e in m.deps["app"] && NormalEdge(e);
    }
    assert (set id | id in m.members - m.procMacros && (id in m.executables || !InternalDependency(m, id))) == {"app"};
  }

  lemma DevShimIsReached()
    ensures HasShim(DEV_SHIM, "app")
  {
    hide Reaches, TargetGraph;
    DirectlyLinked(DEV_SHIM, "app", false, "core");
    DevEdgeIsStep(DEV_SHIM, "core", "shim");
    ReachesNext(TargetGraph(DEV_SHIM), "app", "core", "shim");
    assert ShimPackage(DEV_SHIM, "shim");
  }

  lemma DevEdgeIsStep(m: Metadata, a: Id, b: Id)
    requires a in m.deps && DepEdge(b, [Some("dev")]) in m.deps[a] && b !in m.procMacros
    ensures Step(TargetGraph(m), a, b)
  {
    assert TargetEdge(DepEdge(b, [Some("dev")]));
  }

  lemma DevShimIsNotLinked(tests: bool)
    ensures !LinksShim(DEV_SHIM, tests, Root("app"))
  {
    hide Links;
    assert LinksAreWithin(DEV_SHIM, "app", tests, {"app", "core"});
    LinksWithin(DEV_SHIM, Root("app"), tests, {"app", "core"});
  }

  lemma NamedByItself(m: Metadata, x: Id)
    requires x in m.names
    ensures Named(m, x, Normalize(m.names[x]))
  {
  }

  /** The library gets trampolines, the binary links the library, and nothing it links is the shim. */
  lemma DevOnlyShimIsNotLinked(p: SessionPlan, tests: bool)
    requires Describes(DEV_SHIM, Roots(DEV_SHIM, None), p) && p.excluded == {}
    ensures Roots(DEV_SHIM, None) == {"app"} && OnlyReachesShim(DEV_SHIM, tests, "app")
    ensures GateFails(DEV_SHIM, {"app"}, {}, tests, p, "core", "core")
  {
    hide TargetReaches, Roots, Describes, HasShim, Reaches, LinksShim, GateFails, Named, Normalize, LinkGraph;
    var m := DEV_SHIM;
    DevShimRoots();
    DevShimIsReached();
    DevShimIsNotLinked(tests);
    DirectlyLinked(m, "app", tests, "core");
    NamedByItself(m, "core");
    FailsOn(m, {}, tests, p, "app", Root("app"), "core", "core");
  }

  /** Two binaries share package `md-5`, whose library is called `md5`; one of them uses the shim. */
  const RENAMED := Metadata(
    map["app1" := "app1", "app2" := "app2", "md" := "md-5", "shim" := SHIM], {}, {"app1", "app2"}, {"app1", "app2"},
    map["app1" := [DepEdge("shim", NORMAL), DepEdge("md", NORMAL)], "app2" := [DepEdge("md", NORMAL)]])

  lemma RenamedRoots()
    ensures Roots(RENAMED, None) == {"app1", "app2"}
  {
    var m := RENAMED;
    assert (set id | id in m.members - m.procMacros && (id in m.executables || !InternalDependency(m, id)))
        == {"app1", "app2"};
  }

  lemma RenamedShim(tests: bool)
    ensures LinksShim(RENAMED, tests, Root("app1")) && HasShim(RENAMED, "app1") && !HasShim(RENAMED, "app2")
  {
    hide Reaches, LinkGraph, TargetGraph;
    DirectlyLinked(RENAMED, "app1", tests, "shim");
    assert ShimPackage(RENAMED, "shim");
    assert TargetsWithin(RENAMED, {"app2", "md"});
    ReachesWithin(RENAMED, "app2", {"app2", "md"});
  }

  lemma NoneOfThatLength(m: Metadata, name: string)
    requires forall x :: x in m.names ==> |m.names[x]| != |name|
    ensures forall x :: !Named(m, x, Normalize(name))
  {
  }

  /** No root only reaches the shim; the gate looks for a package called `md5` and finds none. */
  lemma RenamedLibraryIsMissed(p: SessionPlan, tests: bool)
    requires Describes(RENAMED, Roots(RENAMED, None), p) && p.excluded == {}
    ensures Roots(RENAMED, None) == {"app1", "app2"}
    ensures !OnlyReachesShim(RENAMED, tests, "app1") && !OnlyReachesShim(RENAMED, tests, "app2")
    ensures GateFails(RENAMED, {"app1", "app2"}, {}, tests, p, "md", "md5")
  {
    hide TargetReaches, Roots, Describes, HasShim, Reaches, LinksShim, GateFails, Named, Normalize, LinkGraph;
    var m := RENAMED;
    RenamedRoots();
    RenamedShim(tests);
    DirectlyLinked(m, "app1", tests, "md");
    DirectlyLinked(m, "app2", tests, "md");
    ShimlessRootsLackIt(m, tests, "app2");
    NoneOfThatLength(m, "md5");
    FailsOn(m, {}, tests, p, "app1", Root("app2"), "md", "md5");
  }

  /** A binary with the shim shares a library with a proc-macro it uses. */
  const SHARED := Metadata(
    map["app" := "app", "core" := "core", "mac" := "mac", "shim" := SHIM], {"mac"}, {"app"}, {"app"},
    map["app" := [DepEdge("shim", NORMAL), DepEdge("core", NORMAL), DepEdge("mac", NORMAL)],
        "mac" := [DepEdge("core", NORMAL)]])

  lemma SharedRoots()
    ensures Roots(SHARED, None) == {"app"}
  {
    var m := SHARED;
    assert (set id | id in m.members - m.procMacros && (id in m.executables || !InternalDependency(m, id))) == {"app"};
  }

  lemma SharedShim(tests: bool)
    ensures LinksShim(SHARED, tests, Root("app")) && HasShim(SHARED, "app")
    ensures !LinksShim(SHARED, tests, ProcMacro("mac"))
  {
    hide Reaches, LinkGraph, TargetGraph;
    DirectlyLinked(SHARED, "app", tests, "shim");
    assert ShimPackage(SHARED, "shim");
    assert LinksAreWithin(SHARED, "mac", tests, {"mac", "core"});
    LinksWithin(SHARED, ProcMacro("mac"), tests, {"mac", "core"});
  }

  /** The root links the shim; the proc-macro links the library, which the gate let through, without it. */
  lemma HostArtifactIsMissed(p: SessionPlan, tests: bool)
    requires Describes(SHARED, Roots(SHARED, None), p) && p.excluded == {}
    ensures Roots(SHARED, None) == {"app"} && LinksShim(SHARED, tests, Root("app"))
    ensures GateFails(SHARED, {"app"}, {ProcMacro("mac")}, tests, p, "core", "core")
  {
    hide TargetReaches, Roots, Describes, HasShim, Reaches, LinksShim, GateFails, Named, Normalize, LinkGraph;
    var m := SHARED;
    SharedRoots();
    SharedShim(tests);
    DirectlyLinked(m, "app", tests, "core");
    DirectlyLinked(m, "mac", tests, "core");
    NamedByItself(m, "core");
    FailsOn(m, {ProcMacro("mac")}, tests, p, "app", ProcMacro("mac"), "core", "core");
  }
}
