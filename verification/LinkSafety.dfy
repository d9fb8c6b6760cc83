/**
  The wrapper's choice of emitter, and what the shim and OpenTelemetry gates guarantee
  (cargo-instrument/src/wrapper.rs:207-397, cargo-instrument/src/session.rs:254-262, 813-886).
 */
module LinkSafety {
  import opened Basics
  import opened Reachability
  import opened Session
  import opened DependencyPolicy

  datatype Role = Application | LocalPathDependency | WorkspaceMemberDependency | RegistryDependency

  // ---------------------------------------------------------------------------
  // Looking up the native artifact
  // ---------------------------------------------------------------------------

  /** A compiled OpenTelemetry library; `build` stands for target and profile together. */
  datatype Artifact = Artifact(pkg: Id, build: string, features: set<string>, rlib: Path)

  datatype LookupError = NoArtifact | Ambiguous | Gone | LacksTrace | ExternMismatch | ExternWithoutPath

  datatype Lookup = NotMapped | Found(artifact: Artifact) | Unsafe(why: LookupError)

  /** What rustc was told about the `opentelemetry` extern. */
  datatype Extern = NoBinding | Pathless | At(path: Path)

  /** The environment of one lookup: files that exist, and rmeta or linked paths of each rlib. */
  datatype Files = Files(present: set<Path>, aliases: map<Path, set<Path>>)

  predicate Matches(a: Artifact, pkg: Id, build: string) { a.pkg == pkg && a.build == build }

  predicate ExternAgrees(files: Files, a: Artifact, ext: Extern) {
    ext.At? ==> ext.path == a.rlib || (a.rlib in files.aliases && ext.path in files.aliases[a.rlib])
  }

  function Selected(artifacts: seq<Artifact>, pkg: Id, build: string): (r: seq<Artifact>)
    ensures forall a :: a in r <==> a in artifacts && Matches(a, pkg, build)
  {
    if artifacts == [] then []
    else
      assert artifacts == [artifacts[0]] + artifacts[1..];
      (if Matches(artifacts[0], pkg, build) then [artifacts[0]] else []) + Selected(artifacts[1..], pkg, build)
  }

  /** `r4_native_otel_artifact_for`, after the source file has been resolved to a package. */
  function NativeArtifact(p: SessionPlan, pkg: Option<Id>, artifacts: seq<Artifact>, build: string, files: Files,
                          ext: Extern): Lookup
  {
    if pkg.None? || pkg.value !in p.r4 then NotMapped
    else
      var found := Selected(artifacts, p.r4[pkg.value], build);
      if found == [] then Unsafe(NoArtifact)
      else if |found| > 1 then Unsafe(Ambiguous)
      else
        var a := found[0];
        if a.rlib !in files.present then Unsafe(Gone)
        else if "trace" !in a.features then Unsafe(LacksTrace)
        else if ext.At? && !ExternAgrees(files, a, ext) then Unsafe(ExternMismatch)
        else if ext.Pathless? then Unsafe(ExternWithoutPath)
        else Found(a)
  }

  // ---------------------------------------------------------------------------
  // Choosing the emitter
  // ---------------------------------------------------------------------------

  /**
    The facts about one ordinary crate that the wrapper reads. `pkg` is the package its source was
    resolved to and `within` are the packages whose manifest directory contains the source; `sites`
    says whether the analyzed source has anything to rewrite.
   */
  datatype Unit = Unit(
    crateName: string, pkg: Option<Id>, within: set<Id>, role: Role, readable: bool, sites: bool, preflightError: bool,
    collides: bool, noStd: bool, forbidsUnsafe: bool, hasOtel: bool, hasOtelShim: bool)

  /** The environment switches. */
  datatype Mode = Mode(sentinel: bool, nativeEnforced: bool, dependencyOnly: bool, registry: bool)

  datatype Emission = Unmodified | SentinelText | Native(lifecycle: bool) | Trampoline

  function IsShimUnsafe(p: SessionPlan, name: string): bool { Normalize(name) in p.shimUnsafe }

  /** `is_telemetry_or_tool_crate`. */
  predicate TelemetryOrTool(name: string) {
    || name == OTEL || StartsWith(name, "opentelemetry_")
    || name in {SHIM, SHIM_ALIAS, "cargo-instrument", "cargo_instrument"}
  }

  /** `is_host_only_unit`: no root reaches a package of that name, or one of the packages around the source. */
  predicate HostOnlyUnit(p: SessionPlan, u: Unit) {
    Normalize(u.crateName) in p.hostOnly || exists id :: id in u.within && id !in p.targetReachable
  }

  /** The units that are not looked at. */
  predicate Skipped(p: SessionPlan, u: Unit, mode: Mode) {
    || (mode.dependencyOnly && u.pkg.None?)
    || (u.pkg.Some? && u.pkg.value in p.excluded)
    || TelemetryOrTool(u.crateName)
    || HostOnlyUnit(p, u)
    || (u.role == RegistryDependency && !mode.registry)
    || !u.readable
  }

  /** Reasons to leave an analyzed unit alone that come before any emitter is considered. */
  predicate Declined(u: Unit) {
    !u.sites || (u.hasOtelShim && u.preflightError) || u.collides || u.noStd || u.forbidsUnsafe
  }

  function ChooseEmitter(p: SessionPlan, u: Unit, mode: Mode, native: Lookup): Emission {
    if Skipped(p, u, mode) || Declined(u) then Unmodified
    else if mode.sentinel then SentinelText
    else if u.role == Application then
      if u.hasOtel && native.Found? then Native(mode.dependencyOnly)
      else if mode.nativeEnforced then Unmodified
      else if u.hasOtelShim then Trampoline
      else SentinelText
    else if native.Found? then Native(true)
    else if !p.hasShimProvider then Unmodified
    else if IsShimUnsafe(p, u.crateName) then Unmodified
    else Trampoline
  }

  /** The wrapper adds `--extern opentelemetry=<rlib>` for units that do not have the binding. */
  predicate InjectsExtern(u: Unit, emission: Emission, native: Lookup) {
    emission != Unmodified && native.Found? && !u.hasOtel
  }

  // ---------------------------------------------------------------------------
  // What the skip decision means
  // ---------------------------------------------------------------------------

  /** The policy of a dependency-only build is in force exactly in that mode. */
  ghost predicate Configured(m: Metadata, mode: Mode, p: SessionPlan) {
    forall x :: x in p.excluded <==> mode.dependencyOnly && (x in m.members || InClosure(m, x))
  }

  /** The units that are not looked at, in terms of the dependency graph. */
  ghost predicate LeftAlone(m: Metadata, roots: set<Id>, u: Unit, mode: Mode) {
    || (mode.dependencyOnly && (u.pkg.None? || u.pkg.value in m.members || InClosure(m, u.pkg.value)))
    || TelemetryOrTool(u.crateName)
    || HostOnlyName(m, roots, Normalize(u.crateName))
    || (exists id :: id in u.within && !ReachedByRoot(m, roots, id))
    || (u.role == RegistryDependency && !mode.registry)
    || !u.readable
  }

  lemma SkippedMeans(m: Metadata, roots: set<Id>, p: SessionPlan, u: Unit, mode: Mode)
    requires Describes(m, roots, p) && Configured(m, mode, p)
    ensures Skipped(p, u, mode) <==> LeftAlone(m, roots, u, mode)
  {
    hide ReachedByRoot, InClosure, HostOnlyName, Agreed, UnsafeName, SomeRootHasShim, Normalize, TelemetryOrTool;
    forall id ensures id in p.targetReachable <==> ReachedByRoot(m, roots, id) {}
  }

  // ---------------------------------------------------------------------------
  // Names
  // ---------------------------------------------------------------------------

  lemma NormalizeTwice(name: string)
    ensures Normalize(Normalize(name)) == Normalize(name)
  {
    assert forall i :: 0 <= i < |name| ==> Normalize(Normalize(name))[i] == Normalize(name)[i];
  }

  /** Both spellings of a crate name get the same answer. */
  lemma ShimUnsafeExactly(m: Metadata, roots: set<Id>, p: SessionPlan, name: string)
    requires Describes(m, roots, p)
    ensures IsShimUnsafe(p, name) == IsShimUnsafe(p, Normalize(name))
    ensures !IsShimUnsafe(p, name) <==>
              forall root, x ::
                root in roots && TargetReaches(m, root, x) && Named(m, x, Normalize(name)) ==> HasShim(m, root)
  {
    hide TargetReaches, HasShim, Named, Agreed, HostOnlyName, SomeRootHasShim, ReachedByRoot, Normalize;
    NormalizeTwice(name);
    var n := Normalize(name);
    if n in p.shimUnsafe {
      assert UnsafeName(m, roots, n);
    }
    if root, x :| root in roots && TargetReaches(m, root, x) && Named(m, x, n) && !HasShim(m, root) {
      assert UnsafeBy(m, root, n);
    }
  }

  // ---------------------------------------------------------------------------
  // The shim gate
  // ---------------------------------------------------------------------------

  /**
    When a non-application crate gets trampolines, every root that reaches a package of its crate
    name reaches the shim. What that means for linking is the subject of module `Linking`.
   */
  lemma TrampolinesReachShim(m: Metadata, selected: Option<set<Id>>, p: SessionPlan, u: Unit, mode: Mode,
                             native: Lookup)
    requires Describes(m, Roots(m, selected), p)
    requires u.role != Application && ChooseEmitter(p, u, mode, native) == Trampoline
    ensures forall root, x ::
              root in Roots(m, selected) && TargetReaches(m, root, x) && Named(m, x, Normalize(u.crateName)) ==>
                HasShim(m, root)
    ensures SomeRootHasShim(m, Roots(m, selected))
  {
    hide TargetReaches, HasShim, Roots, Normalize, Named, SomeRootHasShim, Skipped, Declined, Agreed, HostOnlyName,
         UnsafeName, ReachedByRoot;
    ShimUnsafeExactly(m, Roots(m, selected), p, u.crateName);
  }

  /** What the gate asks for: a root with the shim, and the shim for every root that reaches a package of that name. */
  ghost predicate GateOpen(m: Metadata, roots: set<Id>, name: string) {
    && SomeRootHasShim(m, roots)
    && forall root, x :: root in roots && TargetReaches(m, root, x) && Named(m, x, name) ==> HasShim(m, root)
  }

  /** When a dependency without native artifact gets trampolines, exactly. */
  lemma TrampolinesExactly(m: Metadata, selected: Option<set<Id>>, p: SessionPlan, u: Unit, mode: Mode, native: Lookup)
    requires Describes(m, Roots(m, selected), p) && Configured(m, mode, p)
    requires u.role != Application && !native.Found?
    ensures ChooseEmitter(p, u, mode, native) == Trampoline <==>
              && !LeftAlone(m, Roots(m, selected), u, mode) && !Declined(u) && !mode.sentinel
              && GateOpen(m, Roots(m, selected), Normalize(u.crateName))
  {
    hide TargetReaches, HasShim, Roots, Normalize, Named, SomeRootHasShim, Agreed, HostOnlyName, UnsafeName,
         ReachedByRoot, Skipped, LeftAlone, Declined, Configured;
    SkippedMeans(m, Roots(m, selected), p, u, mode);
    ShimUnsafeExactly(m, Roots(m, selected), p, u.crateName);
  }

  /**
    Native code in a package is compiled against one library: the only registered build of the
    OpenTelemetry package that every root reaching the package agrees on, with tracing enabled.
   */
  lemma NativeCodeHasOneVersion(m: Metadata, selected: Option<set<Id>>, p: SessionPlan, u: Unit, mode: Mode,
                                artifacts: seq<Artifact>, build: string, files: Files, ext: Extern)
    requires Describes(m, Roots(m, selected), p)
    requires ChooseEmitter(p, u, mode, NativeArtifact(p, u.pkg, artifacts, build, files, ext)).Native?
    ensures u.pkg.Some?
    ensures var a := NativeArtifact(p, u.pkg, artifacts, build, files, ext).artifact;
            && Agreed(m, Roots(m, selected), u.pkg.value, a.pkg)
            && a in artifacts && a.build == build && a.rlib in files.present && "trace" in a.features
            && ExternAgrees(files, a, ext)
            && forall b :: b in artifacts && Matches(b, a.pkg, build) ==> b == a
  {
    hide Agreed, Roots, HostOnlyName, UnsafeName, ReachedByRoot, SomeRootHasShim, Selected, Skipped;
    var found := Selected(artifacts, p.r4[u.pkg.value], build);
    assert found[0] in found;
    forall b | b in artifacts && Matches(b, p.r4[u.pkg.value], build) ensures b == found[0] { assert b in found; }
  }

  // ---------------------------------------------------------------------------
  // Shrinking the root set
  // ---------------------------------------------------------------------------

  /**
    With fewer roots nothing becomes shim-unsafe, and a package still reached keeps exactly the
    OpenTelemetry package it had.
   */
  lemma FewerRootsAreSafer(m: Metadata, more: set<Id>, fewer: set<Id>, p: SessionPlan, q: SessionPlan)
    requires fewer <= more && Describes(m, more, p) && Describes(m, fewer, q)
    ensures q.shimUnsafe <= p.shimUnsafe && q.targetReachable <= p.targetReachable
    ensures p.hostOnly <= q.hostOnly
    ensures forall d :: d in p.r4 && d in q.targetReachable ==> d in q.r4 && q.r4[d] == p.r4[d]
  {
    hide TargetReaches, UnsafeBy, OnlyOtel, Named, HasShim;
    forall n | n in q.shimUnsafe ensures n in p.shimUnsafe { assert UnsafeName(m, fewer, n); }
    forall d | d in p.r4 && d in q.targetReachable ensures d in q.r4 && q.r4[d] == p.r4[d] {
      assert Agreed(m, more, d, p.r4[d]);
      assert Agreed(m, fewer, d, p.r4[d]);
    }
    forall n | n in p.hostOnly ensures n in q.hostOnly { assert HostOnlyName(m, more, n); }
  }

  // ---------------------------------------------------------------------------
  // Planning and wrapping, end to end
  // ---------------------------------------------------------------------------

  /** The package is built into the telemetry, the executor or the workspace of a dependency-only build. */
  ghost predicate OffLimits(m: Metadata, mode: Mode, pkg: Option<Id>) {
    mode.dependencyOnly && (pkg.None? || pkg.value in m.members || InClosure(m, pkg.value))
  }

  /** The unit may be rewritten: it is looked at, has something to rewrite, and nothing in it stands against that. */
  ghost predicate Rewritable(m: Metadata, roots: set<Id>, u: Unit, mode: Mode) {
    && u.readable && u.sites && !u.collides && !u.noStd && !u.forbidsUnsafe && (u.hasOtelShim ==> !u.preflightError)
    && !OffLimits(m, mode, u.pkg)
    && (forall id :: id in u.within ==> ReachedByRoot(m, roots, id))
    && (NameReached(m, roots, Normalize(u.crateName)) || forall x :: !Named(m, x, Normalize(u.crateName)))
    && (u.role == RegistryDependency ==> mode.registry)
    && !("opentelemetry_" <= u.crateName)
    && u.crateName !in {"opentelemetry", "otel_shim", "otel-shim", "cargo_instrument", "cargo-instrument"}
  }

  /**
    A library native code of the unit can be compiled against: the one registered build of the
    OpenTelemetry package on which all roots that reach the unit's package agree; it exists, has
    tracing, and is the one rustc was told about, if it was told about one.
   */
  ghost predicate Usable(m: Metadata, roots: set<Id>, u: Unit, artifacts: seq<Artifact>, build: string, files: Files,
                         ext: Extern, a: Artifact)
  {
    && u.pkg.Some? && Agreed(m, roots, u.pkg.value, a.pkg)
    && a.build == build && a.rlib in files.present && "trace" in a.features
    && (exists i :: 0 <= i < |artifacts| && artifacts[i] == a && Alone(artifacts, i))
    && match ext
       case NoBinding => true
       case Pathless => false
       case At(path) => path == a.rlib || (a.rlib in files.aliases && path in files.aliases[a.rlib])
  }

  /** No other registered library is of the same package and build. */
  ghost predicate Alone(artifacts: seq<Artifact>, i: nat)
    requires i < |artifacts|
  {
    forall j :: 0 <= j < |artifacts| && j != i ==>
      artifacts[j].pkg != artifacts[i].pkg || artifacts[j].build != artifacts[i].build
  }

  lemma RewritableMeans(m: Metadata, roots: set<Id>, u: Unit, mode: Mode)
    ensures Rewritable(m, roots, u, mode) <==> !LeftAlone(m, roots, u, mode) && !Declined(u)
  {
    hide ReachedByRoot, Named, NameReached, InClosure, Normalize;
  }

  /** A list selects exactly one element when one of its elements is alone. */
  lemma {:induction false} SelectsOne(artifacts: seq<Artifact>, pkg: Id, build: string, a: Artifact)
    ensures Selected(artifacts, pkg, build) == [a] <==>
              exists i :: 0 <= i < |artifacts| && artifacts[i] == a && Matches(a, pkg, build) && Alone(artifacts, i)
  {
    if artifacts != [] {
      var rest := artifacts[1..];
      SelectsOne(rest, pkg, build, a);
      if Matches(artifacts[0], pkg, build) {
        SelectsNone(rest, pkg, build);
        if Selected(rest, pkg, build) == [] && a == artifacts[0] { assert Alone(artifacts, 0); }
        if i :| 0 <= i < |artifacts| && artifacts[i] == a && Matches(a, pkg, build) && Alone(artifacts, i) {
          assert i == 0;
          forall j | 0 <= j < |rest| ensures !Matches(rest[j], pkg, build) { assert artifacts[j + 1] == rest[j]; }
        }
      } else {
        if i :| 0 <= i < |rest| && rest[i] == a && Matches(a, pkg, build) && Alone(rest, i) {
          forall j | 0 <= j < |artifacts| && j != i + 1
            ensures artifacts[j].pkg != a.pkg || artifacts[j].build != a.build
          {
            if j > 0 { assert artifacts[j] == rest[j - 1]; }
          }
          assert artifacts[i + 1] == a && Alone(artifacts, i + 1);
        }
        if i :| 0 <= i < |artifacts| && artifacts[i] == a && Matches(a, pkg, build) && Alone(artifacts, i) {
          assert i > 0 && rest[i - 1] == a;
          forall j | 0 <= j < |rest| && j != i - 1 ensures rest[j].pkg != a.pkg || rest[j].build != a.build {
            assert rest[j] == artifacts[j + 1];
          }
          assert Alone(rest, i - 1);
        }
      }
    }
  }

  lemma {:induction false} SelectsNone(artifacts: seq<Artifact>, pkg: Id, build: string)
    ensures Selected(artifacts, pkg, build) == [] <==>
              forall j :: 0 <= j < |artifacts| ==> !Matches(artifacts[j], pkg, build)
  {
    var found := Selected(artifacts, pkg, build);
    forall j | found == [] && 0 <= j < |artifacts| ensures !Matches(artifacts[j], pkg, build) {
      assert artifacts[j] !in found;
    }
    if found != [] { assert found[0] in found; }
  }

  /** The lookup finds exactly the usable library. */
  lemma FoundMeans(m: Metadata, roots: set<Id>, p: SessionPlan, u: Unit, artifacts: seq<Artifact>, build: string,
                   files: Files, ext: Extern, a: Artifact)
    requires Describes(m, roots, p)
    ensures NativeArtifact(p, u.pkg, artifacts, build, files, ext) == Found(a) <==>
              Usable(m, roots, u, artifacts, build, files, ext, a)
  {
    hide Agreed, HostOnlyName, UnsafeName, ReachedByRoot, SomeRootHasShim, Selected, Alone;
    if u.pkg.Some? && u.pkg.value in p.r4 { SelectsOne(artifacts, p.r4[u.pkg.value], build, a); }
    if u.pkg.Some? {
      assert u.pkg.value in p.r4 && p.r4[u.pkg.value] == a.pkg <==> Agreed(m, roots, u.pkg.value, a.pkg);
    }
  }

  /** What a unit becomes, in terms of the dependency graph, the unit and the registered libraries. */
  ghost predicate Decided(m: Metadata, roots: set<Id>, u: Unit, mode: Mode, usable: bool, emission: Emission) {
    var open := Rewritable(m, roots, u, mode) && !mode.sentinel;
    if u.role == Application then
      var native := u.hasOtel && usable;
      && (emission.Native? <==> open && native)
      && (emission.Native? ==> emission.lifecycle == mode.dependencyOnly)
      && (emission.Trampoline? <==> open && !native && !mode.nativeEnforced && u.hasOtelShim)
      && (emission.Unmodified? <==> !Rewritable(m, roots, u, mode) || (open && !native && mode.nativeEnforced))
      && (emission.SentinelText? <==>
          Rewritable(m, roots, u, mode) && (mode.sentinel || (!native && !mode.nativeEnforced && !u.hasOtelShim)))
    else
      && (emission.Native? <==> open && usable)
      && (emission.Native? ==> emission.lifecycle)
      && (emission.Trampoline? <==> open && !usable && GateOpen(m, roots, Normalize(u.crateName)))
      && (emission.SentinelText? <==> Rewritable(m, roots, u, mode) && mode.sentinel)
      && (emission.Unmodified? <==>
          !Rewritable(m, roots, u, mode) || (open && !usable && !GateOpen(m, roots, Normalize(u.crateName))))
  }

  /**
    Planning a session and wrapping one unit, end to end: what the unit becomes, exactly, and that the
    OpenTelemetry extern is added exactly to units that are changed, have a usable library and were not
    told about one.
   */
  method WrapUnit(m: Metadata, selected: Option<set<Id>>, u: Unit, mode: Mode, artifacts: seq<Artifact>,
                  build: string, files: Files, ext: Extern)
    returns (emission: Emission, inject: Option<Path>)
    ensures Decided(m, Roots(m, selected), u, mode,
                    exists a :: Usable(m, Roots(m, selected), u, artifacts, build, files, ext, a), emission)
    ensures forall path :: inject == Some(path) <==>
              && !emission.Unmodified? && !u.hasOtel
              && exists a :: Usable(m, Roots(m, selected), u, artifacts, build, files, ext, a) && a.rlib == path
  {
    hide TargetReaches, HasShim, Roots, Normalize, Named, Agreed, HostOnlyName, UnsafeName, ReachedByRoot,
         NativeArtifact, InClosure, Skipped, LeftAlone, GateOpen, Rewritable, Usable, Declined;
    ghost var roots := Roots(m, selected);
    var p := PlanSession(m, selected);
    if mode.dependencyOnly {
      var policy := new WrapperPolicy(m);
      policy.Configure();
      p := p.(excluded := policy.excluded);
    }
    var native := NativeArtifact(p, u.pkg, artifacts, build, files, ext);
    emission := ChooseEmitter(p, u, mode, native);
    inject := if InjectsExtern(u, emission, native) then Some(native.artifact.rlib) else None;
    forall a ensures native == Found(a) <==> Usable(m, roots, u, artifacts, build, files, ext, a) {
      FoundMeans(m, roots, p, u, artifacts, build, files, ext, a);
    }
    assert native.Found? <==> exists a :: Usable(m, roots, u, artifacts, build, files, ext, a) by {
      if native.Found? { assert native == Found(native.artifact); }
    }
    SkippedMeans(m, roots, p, u, mode);
    RewritableMeans(m, roots, u, mode);
    if u.role != Application && !native.Found? { TrampolinesExactly(m, selected, p, u, mode, native); }
  }
}
