/**
  Acquiring native artifacts before a build: run a plain pre-pass, register what it produced,
  and invalidate whatever the wrapper still has to rewrite
  (cargo-instrument/src/main.rs:440-667, 933-1005).
 */
module Acquisition {
  import opened Basics
  import opened Reachability
  import opened Session
  import opened LinkSafety
  import opened Artifacts
  import opened Invalidation
  import opened DependencyPolicy
  import Stamps

  /** The pre-pass; `ran` is false when Cargo could not be started. */
  datatype Prepass = Prepass(ran: bool, succeeded: bool, messages: seq<Message>)

  datatype Availability = Available | Tier2Only

  datatype AcquireError = NotStarted | Invalidating(why: Failure)

  datatype Verdict = Ok(value: Availability) | Err(error: AcquireError)

  // ---------------------------------------------------------------------------
  // Wanted, desired and retained packages
  // ---------------------------------------------------------------------------

  predicate TelemetryName(name: string) {
    || name == OTEL || StartsWith(name, "opentelemetry_") || name == SHIM || name == SHIM_ALIAS
    || name == "cargo-instrument"
  }

  /** What is fixed for one invocation. */
  datatype Invocation = Invocation(
    metadata: Metadata, plan: SessionPlan, localPackages: set<Id>, registryEnabled: bool, tokioPackages: set<Id>,
    versions: set<Id>)

  predicate Desires(inv: Invocation, id: Id, name: string) {
    && id in inv.plan.targetReachable && id !in inv.plan.excluded && !TelemetryName(name)
    && (id in inv.localPackages || inv.registryEnabled)
  }

  /** `desired_instrumented_package_ids`: the packages the wrapper is to rewrite. */
  function Desired(inv: Invocation, pkgs: seq<Package>): set<Id> {
    set p | p in pkgs && Desires(inv, p.id, p.name) :: p.id
  }

  /**
    The packages that are to be rewritten: reachable, not excluded, not part of the telemetry itself,
    and local unless registry packages are opted in.
   */
  ghost predicate ToRewrite(inv: Invocation, p: Package) {
    && p.id in inv.plan.targetReachable && p.id !in inv.plan.excluded
    && (p.id !in inv.localPackages ==> inv.registryEnabled)
    && !("opentelemetry_" <= p.name)
    && p.name !in {"opentelemetry", "otel-shim", "otel_shim", "cargo-instrument"}
  }

  lemma DesiredMeans(inv: Invocation, pkgs: seq<Package>)
    ensures forall id :: id in Desired(inv, pkgs) <==> exists p :: p in pkgs && p.id == id && ToRewrite(inv, p)
  {
    forall p | p in pkgs ensures Desires(inv, p.id, p.name) <==> ToRewrite(inv, p) {}
  }

  function Owners(records: seq<Artifact>): set<Id> { set a | a in records :: a.pkg }

  /** What the registered libraries are built from. */
  ghost predicate Retained(inv: Invocation, records: seq<Artifact>, id: Id) {
    ReachedFrom(FullGraph(inv.metadata), Owners(records), id)
  }

  /** No desired package lies in the retained closure. */
  ghost predicate NoOverlap(inv: Invocation, pkgs: seq<Package>, records: seq<Artifact>) {
    forall id :: id in Desired(inv, pkgs) ==> !Retained(inv, records, id)
  }

  /** Everything seen is reached, and what has left the queue has all its successors seen. */
  ghost predicate Spreading(g: Graph, seeds: set<Id>, seen: set<Id>, queue: seq<Id>) {
    && seeds <= seen
    && (forall x :: x in seen ==> ReachedFrom(g, seeds, x))
    && (forall x :: x in queue ==> x in seen)
    && (forall x, y :: x in seen && x !in queue && Step(g, x, y) ==> y in seen)
  }

  lemma SpreadStarts(g: Graph, seeds: set<Id>, queue: seq<Id>)
    requires forall x :: x in queue <==> x in seeds
    ensures Spreading(g, seeds, seeds, queue)
  {
    hide Reaches;
    forall x | x in seeds ensures ReachedFrom(g, seeds, x) { ReachesItself(g, x); }
  }

  lemma SpreadStep(g: Graph, seeds: set<Id>, seen: set<Id>, queue: seq<Id>, next: seq<Id>, added: seq<Id>)
    requires Spreading(g, seeds, seen, queue) && queue != []
    requires forall y :: y in next <==> Step(g, queue[0], y)
    requires forall y :: y in added <==> y in next && y !in seen
    ensures Spreading(g, seeds, seen + (set y | y in added), queue[1..] + added)
  {
    hide Reaches, Step;
    assert queue == [queue[0]] + queue[1..] && queue[0] in queue;
    var a :| a in seeds && Reaches(g, a, queue[0]);
    forall y | y in added ensures ReachedFrom(g, seeds, y) { ReachesNext(g, a, queue[0], y); }
  }

  lemma SpreadEnds(g: Graph, seeds: set<Id>, seen: set<Id>)
    requires Spreading(g, seeds, seen, [])
    ensures forall x :: x in seen <==> ReachedFrom(g, seeds, x)
  {
    hide Reaches, Step;
    forall x | ReachedFrom(g, seeds, x) ensures x in seen {
      var a :| a in seeds && Reaches(g, a, x);
      ClosedHoldsReach(g, seen, a, x);
    }
  }

  method ListOf(s: set<Id>) returns (queue: seq<Id>)
    ensures forall x :: x in queue <==> x in s
  {
    queue := [];
    var left := s;
    while left != {}
      invariant left <= s && forall x :: x in queue <==> x in s - left
      decreases |left|
    {
      var x :| x in left;
      queue := queue + [x];
      left := left - {x};
    }
  }

  /** The successors not seen yet, each once. */
  method Unseen(next: seq<Id>, seen: set<Id>) returns (added: seq<Id>)
    ensures forall y :: y in added <==> y in next && y !in seen
  {
    added := [];
    var i := 0;
    while i < |next|
      invariant 0 <= i <= |next| && forall y :: y in added <==> y in next[..i] && y !in seen
    {
      assert next[..i + 1] == next[..i] + [next[i]];
      if next[i] !in seen && next[i] !in added { added := added + [next[i]]; }
      i := i + 1;
    }
    assert next[..i] == next;
  }

  /** `retained_artifact_closure`. */
  method RetainedClosure(inv: Invocation, records: seq<Artifact>) returns (seen: set<Id>)
    ensures forall id :: id in seen <==> Retained(inv, records, id)
  {
    hide Reaches, ReachedFrom, Nodes, FullGraph, Spreading;
    ghost var g := FullGraph(inv.metadata);
    seen := Owners(records);
    ghost var seeds := seen;
    ghost var all := seeds + Nodes(g);
    var queue := ListOf(seen);
    SpreadStarts(g, seeds, queue);
    while queue != []
      invariant Spreading(g, seeds, seen, queue) && seen <= all
      decreases |all - seen|, |queue|
    {
      var id := queue[0];
      ghost var before := seen;
      var next := if id in inv.metadata.deps then AllTargets(inv.metadata.deps[id]) else [];
      NextAreSteps(inv.metadata, id, next);
      var added := Unseen(next, seen);
      SpreadStep(g, seeds, seen, queue, next, added);
      forall y | y in added ensures y in all { StepStaysInNodes(g, id, y); }
      seen := seen + set y | y in added;
      queue := queue[1..] + added;
      if before != seen { Shrinks(all, before, seen); }
      if added != [] { assert added[0] in seen && added[0] !in before; }
    }
    SpreadEnds(g, seeds, seen);
  }

  // ---------------------------------------------------------------------------
  // The shim's metadata format
  // ---------------------------------------------------------------------------

  predicate ShimMessage(inv: Invocation, m: Message) {
    m.Compiled? && m.pkg.Some? && m.pkg.value in inv.metadata.names && inv.metadata.names[m.pkg.value] == SHIM
  }

  predicate HasV2(m: Message) { m.Compiled? && m.features.Some? && "metadata-v2" in m.features.value }

  /** The shim was built, and every build of it has the new metadata. */
  predicate ShimIsV2(inv: Invocation, ms: seq<Message>) {
    (exists m :: m in ms && ShimMessage(inv, m)) && forall m :: m in ms && ShimMessage(inv, m) ==> HasV2(m)
  }

  /** The package of that name was built, and each of its builds lists the feature. */
  ghost predicate NewShim(inv: Invocation, ms: seq<Message>) {
    && (exists m :: m in ms && BuildOf(inv, m, "otel-shim"))
    && (forall m :: m in ms && BuildOf(inv, m, "otel-shim") ==> m.features.Some? && "metadata-v2" in m.features.value)
  }

  ghost predicate BuildOf(inv: Invocation, m: Message, name: string) {
    exists id :: m.Compiled? && m.pkg == Some(id) && id in inv.metadata.names && inv.metadata.names[id] == name
  }

  lemma ShimIsV2Means(inv: Invocation, ms: seq<Message>)
    ensures ShimIsV2(inv, ms) <==> NewShim(inv, ms)
  {
    forall m | m in ms ensures ShimMessage(inv, m) <==> BuildOf(inv, m, "otel-shim") {
      if ShimMessage(inv, m) { assert m.pkg == Some(m.pkg.value); }
    }
  }

  /** The pre-pass ended well and its output can be read in full for both kinds of libraries. */
  ghost predicate Complete(inv: Invocation, prepass: Prepass, native: seq<Artifact>, tokio: seq<Artifact>, disk: Disk) {
    && prepass.succeeded
    && Readable(prepass.messages, inv.plan.r4.Values, inv.versions, native, disk)
    && Readable(prepass.messages, inv.tokioPackages, inv.versions, tokio, disk)
  }

  // ---------------------------------------------------------------------------
  // Acquisition
  // ---------------------------------------------------------------------------

  /** Nothing about the package needs a rebuild: its messages are all fresh and certified. */
  ghost predicate Settled(ms: seq<Message>, disk: Disk, id: Id) {
    forall m :: m in ms && m.Compiled? && m.pkg == Some(id) ==> m.isFresh && Certified(m, disk)
  }

  /** The desired packages that need a rebuild. */
  ghost predicate Dirty(ms: seq<Message>, desired: set<Id>, disk: Disk, id: Id) {
    id in desired && !Settled(ms, disk, id)
  }

  ghost predicate LibrariesExist(records: seq<Artifact>, disk: Disk) { forall a :: a in records ==> a.rlib in disk }

  /** Every library belongs to its own package and is no stamp. */
  ghost predicate LibrariesOwned(dir: TargetDir, records: seq<Artifact>) {
    forall a :: a in records ==> a.rlib in dir.owner && dir.owner[a.rlib] == a.pkg && NotStamp(a.rlib.name)
  }

  ghost predicate NotStamp(name: string) { forall pkg :: !Stamps.Removed(pkg, name) }

  class Orchestrator {
    const inv: Invocation
    const dir: TargetDir
    const native: Registry
    const tokio: Registry
    var shimMetadataV2: bool

    constructor (inv: Invocation, dir: TargetDir)
      ensures this.inv == inv && this.dir == dir && fresh(native) && fresh(tokio) && native != tokio
      ensures native.records == [] && tokio.records == [] && !shimMetadataV2
    {
      this.inv, this.dir, shimMetadataV2 := inv, dir, false;
      native := new Registry();
      tokio := new Registry();
    }

    /** Registers what the pre-pass built; false when its output is incomplete. */
    method Capture(prepass: Prepass) returns (complete: bool)
      requires native != tokio && DistinctKeys(native.records) && DistinctKeys(tokio.records)
      modifies this`shimMetadataV2, native, tokio
      ensures DistinctKeys(native.records) && DistinctKeys(tokio.records)
      ensures complete <==> Complete(inv, prepass, old(native.records), old(tokio.records), dir.disk)
      ensures complete ==> (shimMetadataV2 <==> NewShim(inv, prepass.messages))
      ensures complete && old(native.records) == [] ==> LibrariesExist(native.records, dir.disk)
      ensures complete ==>
                var ms := prepass.messages;
                && HoldsRegistered(ms, inv.plan.r4.Values, inv.versions, old(native.records), native.records)
                && HoldsRegistered(ms, inv.tokioPackages, inv.versions, old(tokio.records), tokio.records)
    {
      hide ShimIsV2, Collected, DistinctKeys, Readable, HoldsRegistered;
      ShimIsV2Means(inv, prepass.messages);
      if !prepass.succeeded { return false; }
      shimMetadataV2 := ShimIsV2(inv, prepass.messages);
      var nativeRead := native.Add(prepass.messages, inv.plan.r4.Values, inv.versions, dir.disk);
      var tokioRead := tokio.Add(prepass.messages, inv.tokioPackages, inv.versions, dir.disk);
      complete := nativeRead && tokioRead;
    }

    /**
      `acquire_native_artifacts`. `captured` says that the pre-pass and its output were complete,
      `registered` what it registered, `rebuilt` is what was invalidated in the end, and `first` and
      `second` are how the clean commands end.
     */
    method Acquire(prepass: Prepass, first: nat -> CleanResult, second: nat -> CleanResult)
      returns (r: Verdict, ghost captured: bool, ghost registered: seq<Artifact>, ghost rebuilt: set<Id>)
      requires native != tokio && native.records == [] && tokio.records == []
      modifies this`shimMetadataV2, native, tokio, dir
      ensures !prepass.ran ==> r == Err(NotStarted) && dir.cleaned == old(dir.cleaned)
      // Every package to be rewritten was invalidated or is fresh and certified, and nothing else was invalidated.
      ensures r.Ok? ==> forall p :: p in dir.pkgs && ToRewrite(inv, p) ==>
                p.id in rebuilt || Settled(prepass.messages, old(dir.disk), p.id)
      ensures r.Ok? ==> forall id :: id in rebuilt ==> exists p :: p in dir.pkgs && p.id == id && ToRewrite(inv, p)
      ensures r.Ok? ==> forall id :: id in Desired(inv, dir.pkgs) ==>
                id in rebuilt || Settled(prepass.messages, old(dir.disk), id)
      ensures r.Ok? ==> dir.cleaned == old(dir.cleaned) + rebuilt && rebuilt <= Desired(inv, dir.pkgs)
      // What each outcome promises.
      ensures r == Ok(Available) ==>
                && captured && native.records == registered && registered != []
                && LibrariesExist(registered, dir.disk)
                && NoOverlap(inv, dir.pkgs, registered)
      // Without a fallback to everything, exactly what needed a rebuild is gone, with its files and stamps.
      ensures r == Ok(Available) || (r.Ok? && captured && registered == []) ==>
                (NoOverlap(inv, dir.pkgs, registered) ==>
                  && (forall id :: id in rebuilt <==>
                        Dirty(prepass.messages, Desired(inv, dir.pkgs), old(dir.disk), id))
                  && dir.disk == AfterInvalidation(dir, rebuilt, old(dir.disk)))
      // An overlap with what the registered libraries are built from gives up everything desired.
      ensures r.Ok? && captured && !NoOverlap(inv, dir.pkgs, registered) ==>
                r == Ok(Tier2Only) && rebuilt == Desired(inv, dir.pkgs)
      ensures r == Ok(Tier2Only) ==> native.records == []
      ensures r.Ok? && !captured ==>
                && r.value.Tier2Only? && tokio.records == [] && !shimMetadataV2
                && rebuilt == Desired(inv, dir.pkgs)
      ensures r.Ok? && captured ==> (shimMetadataV2 <==> NewShim(inv, prepass.messages))
      // Everything desired is given up unless the output is complete and every message can be read.
      ensures prepass.ran ==>
                (captured <==>
                  && Complete(inv, prepass, [], [], old(dir.disk))
                  && forall m :: m in prepass.messages ==> !Unreadable(m))
      ensures captured ==> HoldsRegistered(prepass.messages, inv.plan.r4.Values, inv.versions, [], registered)
      // Falling back is never due to the invalidation itself.
      ensures r.Ok? && captured && registered != [] ==>
                (LibrariesOwned(dir, registered) && NoOverlap(inv, dir.pkgs, registered) ==> r == Ok(Available))
    {
      hide NewShim, Complete, HoldsRegistered, Desired, Retained, Dirty, Settled, DistinctKeys, LibrariesExist,
           LibrariesOwned, AfterInvalidation, Permitted, Refuses, Unreadable, Uncertified, Recompiles;
      captured, registered, rebuilt := false, [], {};
      var desired := Desired(inv, dir.pkgs);
      DesiredMeans(inv, dir.pkgs);
      ghost var disk0 := dir.disk;
      if !prepass.ran { return Err(NotStarted), false, [], {}; }
      NothingRegistered();
      var complete := Capture(prepass);
      var recompiled := FreshlyCompiled(prepass.messages);
      if !complete || recompiled.None? {
        shimMetadataV2 := false;
        native.Clear();
        tokio.Clear();
        r := TakeTier2(desired, first);
        return r, false, [], desired;
      }
      captured, registered := true, native.records;
      var retained := RetainedClosure(inv, native.records);
      if desired * retained != {} {
        native.Clear();
        r := TakeTier2(desired, first);
        return r, captured, registered, desired;
      }
      ApartMembers(desired, retained);
      var uncertified := UninstrumentedFresh(prepass.messages, desired, dir.disk);
      var dirty := desired * recompiled.value + uncertified;
      DirtyExactly(prepass.messages, desired, disk0, recompiled.value, uncertified);
      if native.records == [] {
        r := TakeTier2(dirty, first);
        return r, captured, registered, dirty;
      }
      var toClean := dirty - retained;
      CleanIsDirty(desired, retained, dirty);
      var invalidated := Invalidate(dir, toClean, retained, first);
      if invalidated.Failed? { return Err(Invalidating(invalidated.why)), captured, registered, {}; }
      LibrariesSurvive(inv, dir, registered, toClean, retained, disk0);
      if exists a :: a in native.records && a.rlib !in dir.disk {
        LibrariesMissing(registered, dir.disk);
        native.Clear();
        r := TakeTier2(desired, second);
        return r, captured, registered, desired;
      }
      LibrariesPresent(registered, dir.disk);
      rebuilt := dirty;
      r := Ok(Available);
    }

    /** Every fallback: invalidate without retaining anything. */
    method TakeTier2(ids: set<Id>, results: nat -> CleanResult) returns (r: Verdict)
      modifies dir
      ensures r.Ok? ==> r == Ok(Tier2Only) && dir.cleaned == old(dir.cleaned) + ids
      ensures r.Ok? ==> dir.disk == AfterInvalidation(dir, ids, old(dir.disk))
    {
      hide AfterInvalidation, Permitted, Refuses;
      var invalidated := Invalidate(dir, ids, {}, results);
      r := if invalidated.Failed? then Err(Invalidating(invalidated.why)) else Ok(Tier2Only);
    }
  }

  lemma ApartMembers(a: set<Id>, b: set<Id>)
    requires a * b == {}
    ensures forall x :: x in a ==> x !in b
  {
    forall x | x in a ensures x !in b { assert x in b ==> x in a * b; }
  }

  lemma CleanIsDirty(desired: set<Id>, retained: set<Id>, dirty: set<Id>)
    requires desired * retained == {} && dirty <= desired
    ensures dirty - retained == dirty && dirty - retained !! retained
  {
    assert forall id :: id in dirty && id in retained ==> id in desired * retained;
  }

  lemma NothingRegistered()
    ensures DistinctKeys([])
  {
  }

  lemma LibrariesMissing(records: seq<Artifact>, disk: Disk)
    requires exists a :: a in records && a.rlib !in disk
    ensures !LibrariesExist(records, disk)
  {
  }

  lemma LibrariesPresent(records: seq<Artifact>, disk: Disk)
    requires !exists a :: a in records && a.rlib !in disk
    ensures LibrariesExist(records, disk)
  {
  }

  /** The recompiled and the uncertified packages together are the ones that need a rebuild. */
  lemma DirtyExactly(ms: seq<Message>, desired: set<Id>, disk: Disk, recompiled: set<Id>, uncertified: set<Id>)
    requires forall id :: id in recompiled <==> exists m :: m in ms && Recompiles(m, id)
    requires forall id :: id in uncertified <==> exists m :: m in ms && Uncertified(m, desired, disk, id)
    ensures forall id :: id in desired * recompiled + uncertified <==> Dirty(ms, desired, disk, id)
    ensures forall id :: id in desired && id !in desired * recompiled + uncertified ==> Settled(ms, disk, id)
    ensures desired * recompiled + uncertified <= desired
  {
    hide Certified;
    forall id | id in desired && !Settled(ms, disk, id) ensures id in desired * recompiled + uncertified {
      var m :| m in ms && m.Compiled? && m.pkg == Some(id) && !(m.isFresh && Certified(m, disk));
      if m.isFresh { assert Uncertified(m, desired, disk, id); } else { assert Recompiles(m, id); }
    }
    forall id | id in desired * recompiled + uncertified ensures id in desired && !Settled(ms, disk, id) {
      if id in uncertified {
        var m :| m in ms && Uncertified(m, desired, disk, id);
      } else {
        var m :| m in ms && Recompiles(m, id);
      }
    }
  }

  /** Selective invalidation leaves the retained libraries in place. */
  lemma LibrariesSurvive(inv: Invocation, dir: TargetDir, records: seq<Artifact>, ids: set<Id>, retained: set<Id>,
                         disk: Disk)
    requires forall id :: id in retained <==> Retained(inv, records, id)
    requires ids !! retained && LibrariesExist(records, disk)
    ensures LibrariesOwned(dir, records) ==> LibrariesExist(records, AfterInvalidation(dir, ids, disk))
  {
    hide Reaches, FullGraph, Stamps.Removed, RequestedNames;
    forall a | a in records ensures a.pkg in retained {
      assert a.pkg in Owners(records);
      ReachesItself(FullGraph(inv.metadata), a.pkg);
    }
    if LibrariesOwned(dir, records) {
      forall a | a in records ensures a.rlib in AfterInvalidation(dir, ids, disk) {
        assert a.rlib in WithoutFilesOf(dir.owner, ids, disk);
      }
    }
  }

  // ---------------------------------------------------------------------------
  // What is invalidated and what is rewritten
  // ---------------------------------------------------------------------------

  /** The library of a package as the wrapper meets it, named after its package. */
  function LibraryOf(inv: Invocation, p: Package): Unit {
    var role := if p.id in inv.localPackages then LocalPathDependency else RegistryDependency;
    Unit(Normalize(p.name), Some(p.id), {p.id}, role, true, true, false, false, false, false, false, false)
  }

  lemma NormalizeFixes(name: string, t: string)
    requires forall i :: 0 <= i < |t| ==> t[i] != '-' && t[i] != '_'
    ensures t <= Normalize(name) <==> t <= name
    ensures Normalize(name) == t <==> name == t
  {
    if t <= Normalize(name) {
      forall i | 0 <= i < |t| ensures name[i] == t[i] { assert Normalize(name)[i] == t[i]; }
    }
    if t <= name {
      forall i | 0 <= i < |t| ensures Normalize(name)[i] == t[i] { assert name[i] == t[i]; }
    }
  }

  /** t and u differ in one place, where t has the underscore and u the dash. */
  ghost predicate Spellings(t: string, u: string, k: nat) {
    && |t| == |u| && k < |t| && t[k] == '_' && u[k] == '-'
    && forall i :: 0 <= i < |t| && i != k ==> t[i] == u[i] != '-' && t[i] != '_'
  }

  /** A normalized name has the underscore spelling exactly when the name has either, and never the other. */
  lemma NormalizeJoins(name: string, t: string, u: string, k: nat)
    requires Spellings(t, u, k)
    ensures t <= Normalize(name) <==> t <= name || u <= name
    ensures Normalize(name) == t <==> name == t || name == u
    ensures Normalize(name) != u
  {
    var n := Normalize(name);
    if t <= n {
      assert n[k] == '_';
      var v := if name[k] == '-' then u else t;
      forall i | 0 <= i < |v| ensures name[i] == v[i] { assert n[i] == t[i]; }
    }
    if t <= name || u <= name {
      forall i | 0 <= i < |t| ensures n[i] == t[i] { assert name[i] == t[i] || name[i] == u[i]; }
    }
    if k < |n| { assert n[k] != '-'; }
  }

  lemma ToolSpellings()
    ensures Spellings("otel_shim", "otel-shim", 4)
    ensures Spellings("cargo_instrument", "cargo-instrument", 5)
  {
  }

  lemma OtelSpellings()
    ensures Spellings("opentelemetry_", "opentelemetry-", 13)
    ensures forall i :: 0 <= i < |"opentelemetry"| ==> "opentelemetry"[i] != '-' && "opentelemetry"[i] != '_'
  {
  }

  lemma TelemetryCrates(name: string)
    ensures TelemetryOrTool(Normalize(name)) <==>
              || name in {"opentelemetry", "otel-shim", "otel_shim", "cargo-instrument", "cargo_instrument"}
              || "opentelemetry_" <= name || "opentelemetry-" <= name
  {
    hide Normalize, Spellings;
    ToolSpellings();
    OtelSpellings();
    NormalizeFixes(name, "opentelemetry");
    NormalizeJoins(name, "opentelemetry_", "opentelemetry-", 13);
    NormalizeJoins(name, "otel_shim", "otel-shim", 4);
    NormalizeJoins(name, "cargo_instrument", "cargo-instrument", 5);
  }

  /**
    What the orchestrator invalidates is what the wrapper looks at, with one exception: it goes by
    package names, the wrapper by crate names, so packages named `opentelemetry-...` (and
    `cargo_instrument`) are invalidated although their crates are never rewritten.
   */
  lemma WrapperAgrees(inv: Invocation, roots: set<Id>, p: Package, mode: Mode)
    requires Describes(inv.metadata, roots, inv.plan) && mode.registry == inv.registryEnabled
    requires p.id in inv.metadata.names && inv.metadata.names[p.id] == p.name
    ensures !Skipped(inv.plan, LibraryOf(inv, p), mode) <==>
              ToRewrite(inv, p) && !("opentelemetry-" <= p.name) && p.name != "cargo_instrument"
  {
    hide TargetReaches, Agreed, UnsafeName, SomeRootHasShim, Normalize, TelemetryOrTool;
    var u := LibraryOf(inv, p);
    NormalizeTwice(p.name);
    TelemetryCrates(p.name);
    assert p.id in u.within;
    if p.id in inv.plan.targetReachable {
      assert ReachedByRoot(inv.metadata, roots, p.id) && Named(inv.metadata, p.id, Normalize(p.name));
      assert !HostOnlyName(inv.metadata, roots, Normalize(p.name));
    }
  }
}
