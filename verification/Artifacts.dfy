/**
  Reading Cargo's artifact messages: which packages were recompiled, which fresh ones carry no
  valid stamp, and which libraries are registered
  (cargo-instrument/src/main.rs:669-690, 820-912, cargo-instrument/src/session.rs:264-402).
 */
module Artifacts {
  import opened Basics
  import opened Reachability
  import opened Session
  import opened Stamps
  import opened LinkSafety

  /** One line of Cargo's JSON output; `Compiled` is a compiler-artifact message. */
  datatype Message =
    | Malformed
    | Other
    | Compiled(pkg: Option<Id>, isFresh: bool, target: Option<string>, files: Option<seq<Path>>,
               features: Option<set<string>>, build: string)

  /** Modification times, in nanoseconds, of the files that exist. */
  type Disk = map<Path, nat>

  const SECOND: nat := 1_000_000_000

  // ---------------------------------------------------------------------------
  // Recompiled packages
  // ---------------------------------------------------------------------------

  predicate Unreadable(m: Message) { m.Malformed? || (m.Compiled? && !m.isFresh && m.pkg.None?) }

  predicate Recompiles(m: Message, id: Id) { m.Compiled? && !m.isFresh && m.pkg == Some(id) }

  /** `freshly_compiled_package_ids`; None is a parse error. */
  method FreshlyCompiled(ms: seq<Message>) returns (r: Option<set<Id>>)
    ensures r.None? <==> exists m :: m in ms && Unreadable(m)
    ensures r.Some? ==> forall id :: id in r.value <==> exists m :: m in ms && Recompiles(m, id)
  {
    var ids := {};
    var i := 0;
    while i < |ms|
      invariant 0 <= i <= |ms|
      invariant forall m :: m in ms[..i] ==> !Unreadable(m)
      invariant forall id :: id in ids <==> exists m :: m in ms[..i] && Recompiles(m, id)
    {
      var m := ms[i];
      assert ms[..i + 1] == ms[..i] + [m] && m in ms;
      if Unreadable(m) { return None; }
      if m.Compiled? && !m.isFresh {
        ids := ids + {m.pkg.value};
        assert Recompiles(m, m.pkg.value);
      }
      i := i + 1;
    }
    assert ms[..i] == ms;
    r := Some(ids);
  }

  // ---------------------------------------------------------------------------
  // Certification by stamps
  // ---------------------------------------------------------------------------

  /** Where the stamp of an artifact lives. */
  function StampPath(norm: string, f: Path): (p: Path)
    requires ArtifactStampName(norm, f.name).Some?
  {
    var name := ArtifactStampName(norm, f.name).value;
    if f.dir != [] && f.dir[|f.dir| - 1] == "deps" then Path(f.dir, name) else Path(f.dir + ["deps"], name)
  }

  /** Files that exist and have a stamp name; the others are ignored. */
  predicate Counts(norm: string, disk: Disk, f: Path) { f in disk && ArtifactStampName(norm, f.name).Some? }

  /** The stamp of f is no older than g, give or take a second. */
  predicate Vouches(norm: string, disk: Disk, f: Path, g: Path)
    requires Counts(norm, disk, f) && Counts(norm, disk, g)
  {
    var s := StampPath(norm, f);
    s in disk && disk[s] + SECOND >= disk[g]
  }

  /** Some file counts, and the stamps of all counted files vouch for all counted files. */
  ghost predicate Certified(m: Message, disk: Disk) {
    m.Compiled? && m.target.Some? && m.files.Some?
    && var norm := Normalize(m.target.value);
       && (exists f :: f in m.files.value && Counts(norm, disk, f))
       && forall f, g :: f in m.files.value && g in m.files.value && Counts(norm, disk, f) && Counts(norm, disk, g)
            ==> Vouches(norm, disk, f, g)
  }

  /** Where the stamp of a file named so lies: in the `deps` directory beside or around the file. */
  ghost function StampOf(f: Path, name: string): Path {
    if f.dir != [] && f.dir[|f.dir| - 1] == "deps" then Path(f.dir, name) else Path(f.dir + ["deps"], name)
  }

  /**
    Certification, spelled out: of the files that exist and can have a stamp there is one, each has its
    stamp, and no stamp is older than any of these files by more than a second.
   */
  lemma CertifiedMeans(m: Message, disk: Disk)
    ensures Certified(m, disk) <==>
              && m.Compiled? && m.target.Some? && m.files.Some?
              && var files := set f | f in m.files.value && f in disk
                                      && ArtifactStampName(Normalize(m.target.value), f.name).Some?;
                 && files != {}
                 && forall f, g :: f in files && g in files ==>
                      var s := StampOf(f, ArtifactStampName(Normalize(m.target.value), f.name).value);
                      s in disk && disk[g] <= disk[s] + 1_000_000_000
  {
    hide ArtifactStampName, Normalize;
    if m.Compiled? && m.target.Some? && m.files.Some? {
      var norm := Normalize(m.target.value);
      var files := set f | f in m.files.value && f in disk && ArtifactStampName(norm, f.name).Some?;
      assert forall f :: f in files <==> f in m.files.value && Counts(norm, disk, f);
      forall f, g | f in files && g in files
        ensures Vouches(norm, disk, f, g) <==>
                  var s := StampOf(f, ArtifactStampName(norm, f.name).value);
                  s in disk && disk[g] <= disk[s] + 1_000_000_000
      {
      }
    }
  }

  method IsCertified(m: Message, disk: Disk) returns (valid: bool)
    requires m.Compiled?
    ensures valid <==> Certified(m, disk)
  {
    hide ArtifactStampName, StampPath, Normalize;
    if m.target.None? || m.files.None? || m.files.value == [] { return false; }
    var norm := Normalize(m.target.value);
    var files := m.files.value;
    var counted := [];
    var i := 0;
    while i < |files|
      invariant 0 <= i <= |files|
      invariant forall f :: f in counted <==> f in files[..i] && Counts(norm, disk, f)
    {
      assert files[..i + 1] == files[..i] + [files[i]];
      if Counts(norm, disk, files[i]) { counted := counted + [files[i]]; }
      i := i + 1;
    }
    assert files[..i] == files;
    if counted == [] { return false; }
    assert counted[0] in counted;
    valid := forall f, g :: f in counted && g in counted ==> Vouches(norm, disk, f, g);
  }

  /** A fresh message of a wanted package that no stamp certifies. */
  ghost predicate Uncertified(m: Message, wanted: set<Id>, disk: Disk, id: Id) {
    m.Compiled? && m.pkg == Some(id) && id in wanted && m.isFresh && !Certified(m, disk)
  }

  /** `uninstrumented_fresh_package_ids`. */
  method UninstrumentedFresh(ms: seq<Message>, wanted: set<Id>, disk: Disk) returns (ids: set<Id>)
    ensures forall id :: id in ids <==> exists m :: m in ms && Uncertified(m, wanted, disk, id)
  {
    hide Certified;
    ids := {};
    var i := 0;
    while i < |ms|
      invariant 0 <= i <= |ms|
      invariant forall id :: id in ids <==> exists m :: m in ms[..i] && Uncertified(m, wanted, disk, id)
    {
      var m := ms[i];
      assert ms[..i + 1] == ms[..i] + [m];
      if m.Compiled? && m.pkg.Some? && m.pkg.value in wanted && m.isFresh {
        var valid := IsCertified(m, disk);
        if !valid {
          ids := ids + {m.pkg.value};
          assert Uncertified(m, wanted, disk, m.pkg.value);
        }
      }
      i := i + 1;
    }
    assert ms[..i] == ms;
  }

  // ---------------------------------------------------------------------------
  // Registering libraries
  // ---------------------------------------------------------------------------

  /** `Path::extension`: a name that consists of the extension alone has none. */
  predicate IsRlib(f: Path) { |f.name| > 5 && f.name[|f.name| - 5..] == ".rlib" }

  function Rlibs(files: seq<Path>): seq<Path> {
    if files == [] then [] else (if IsRlib(files[0]) then [files[0]] else []) + Rlibs(files[1..])
  }

  datatype Reading = Ignore | Fail | Register(artifact: Artifact)

  /** What one message contributes. */
  function Read(m: Message, wanted: set<Id>, versions: set<Id>): Reading {
    if m.Malformed? then Fail
    else if !m.Compiled? || m.pkg.None? || m.pkg.value !in wanted then Ignore
    else
      var rlibs := if m.files.None? then [] else Rlibs(m.files.value);
      if |rlibs| != 1 then Fail
      else if m.features.None? then Ignore
      else if m.pkg.value !in versions then Fail
      else Register(Artifact(m.pkg.value, m.build, m.features.value, rlibs[0]))
  }

  /** The artifacts of all messages in order, unless one fails. */
  function Collected(ms: seq<Message>, wanted: set<Id>, versions: set<Id>): Option<seq<Artifact>> {
    if ms == [] then Some([])
    else
      var before := Collected(ms[..|ms| - 1], wanted, versions);
      var reading := Read(ms[|ms| - 1], wanted, versions);
      if before.None? || reading.Fail? then None
      else Some(before.value + if reading.Register? then [reading.artifact] else [])
  }

  predicate RlibName(name: string) { |name| > 5 && name[|name| - 5..] == ".rlib" }

  /** The file at i is the only library. */
  ghost predicate OnlyRlibAt(files: seq<Path>, i: nat)
    requires i < |files|
  {
    RlibName(files[i].name) && forall j :: 0 <= j < |files| && j != i ==> !RlibName(files[j].name)
  }

  ghost predicate OnlyRlib(files: seq<Path>, f: Path) {
    exists i :: 0 <= i < |files| && files[i] == f && OnlyRlibAt(files, i)
  }

  /** A readable build of a wanted package, with its features and exactly one library, whose version is known. */
  ghost predicate Registers(m: Message, wanted: set<Id>, versions: set<Id>, a: Artifact) {
    && m.Compiled? && m.pkg == Some(a.pkg) && a.pkg in wanted && a.pkg in versions
    && m.features == Some(a.features) && m.build == a.build && m.files.Some? && OnlyRlib(m.files.value, a.rlib)
  }

  /** A line that is no JSON, or a build of a wanted package without its one library, or of an unknown version. */
  ghost predicate Spoils(m: Message, wanted: set<Id>, versions: set<Id>) {
    || m.Malformed?
    || (&& m.Compiled? && m.pkg.Some? && m.pkg.value in wanted
        && ((m.features.Some? && m.pkg.value !in versions)
            || m.files.None? || forall f :: !OnlyRlib(m.files.value, f)))
  }

  lemma {:induction false} RlibsNone(files: seq<Path>)
    ensures Rlibs(files) == [] <==> forall j :: 0 <= j < |files| ==> !RlibName(files[j].name)
  {
    if files != [] {
      RlibsNone(files[1..]);
      assert forall j :: 0 < j < |files| ==> files[j] == files[1..][j - 1];
    }
  }

  lemma OnlyInTail(files: seq<Path>, f: Path)
    requires files != [] && !RlibName(files[0].name)
    ensures OnlyRlib(files, f) <==> OnlyRlib(files[1..], f)
  {
    hide RlibName;
    var rest := files[1..];
    if i :| 0 <= i < |rest| && rest[i] == f && OnlyRlibAt(rest, i) {
      forall j | 0 <= j < |files| && j != i + 1 ensures !RlibName(files[j].name) {
        if j > 0 { assert files[j] == rest[j - 1]; }
      }
      assert files[i + 1] == f && OnlyRlibAt(files, i + 1);
    }
    if i :| 0 <= i < |files| && files[i] == f && OnlyRlibAt(files, i) {
      forall j | 0 <= j < |rest| && j != i - 1 ensures !RlibName(rest[j].name) { assert rest[j] == files[j + 1]; }
      assert rest[i - 1] == f && OnlyRlibAt(rest, i - 1);
    }
  }

  lemma FirstIsOnly(files: seq<Path>, f: Path)
    requires files != [] && RlibName(files[0].name)
    ensures OnlyRlib(files, f) <==> f == files[0] && forall j :: 0 <= j < |files[1..]| ==> !RlibName(files[1..][j].name)
  {
    hide RlibName;
    var rest := files[1..];
    assert forall j :: 0 < j < |files| ==> files[j] == rest[j - 1];
    assert forall j :: 0 <= j < |rest| ==> rest[j] == files[j + 1];
    if forall j :: 0 <= j < |rest| ==> !RlibName(rest[j].name) { assert OnlyRlibAt(files, 0); }
  }

  /** There is one library in the list exactly when some file is the only one. */
  lemma {:induction false} RlibsMeans(files: seq<Path>, f: Path)
    ensures Rlibs(files) == [f] <==> OnlyRlib(files, f)
  {
    if files != [] {
      var rest := files[1..];
      RlibsMeans(rest, f);
      RlibsNone(rest);
      if !RlibName(files[0].name) {
        OnlyInTail(files, f);
      } else {
        FirstIsOnly(files, f);
      }
    }
  }

  /** What a message contributes, told by the message. */
  lemma ReadMeans(m: Message, wanted: set<Id>, versions: set<Id>)
    ensures Read(m, wanted, versions).Fail? <==> Spoils(m, wanted, versions)
    ensures forall a :: Read(m, wanted, versions) == Register(a) <==> Registers(m, wanted, versions, a)
  {
    hide OnlyRlib, Rlibs;
    if m.Compiled? && m.files.Some? {
      var files := m.files.value;
      forall f ensures Rlibs(files) == [f] <==> OnlyRlib(files, f) { RlibsMeans(files, f); }
      assert |Rlibs(files)| == 1 ==> Rlibs(files) == [Rlibs(files)[0]];
    }
  }

  /** What all messages contribute. */
  lemma {:induction false} CollectedMeans(ms: seq<Message>, wanted: set<Id>, versions: set<Id>)
    ensures Collected(ms, wanted, versions).None? <==> exists m :: m in ms && Spoils(m, wanted, versions)
    ensures Collected(ms, wanted, versions).Some? ==> forall a ::
              a in Collected(ms, wanted, versions).value <==> exists m :: m in ms && Registers(m, wanted, versions, a)
    decreases |ms|
  {
    hide Read, Spoils, Registers;
    if ms != [] {
      var n := |ms| - 1;
      assert ms == ms[..n] + [ms[n]];
      CollectedMeans(ms[..n], wanted, versions);
      ReadMeans(ms[n], wanted, versions);
    }
  }

  predicate SameKey(a: Artifact, b: Artifact) { a.pkg == b.pkg && a.build == b.build }

  ghost predicate DistinctKeys(s: seq<Artifact>) { forall i, j :: 0 <= i < j < |s| ==> !SameKey(s[i], s[j]) }

  ghost predicate AllPresent(s: seq<Artifact>, disk: Disk) { forall a :: a in s ==> a.rlib in disk }

  /** What can be added to the records: present libraries with keys of their own. */
  ghost predicate Addable(records: seq<Artifact>, more: seq<Artifact>, disk: Disk) {
    AllPresent(more, disk) && DistinctKeys(records + more)
  }

  /** The first k were added, and the next one, if any, could not be. */
  ghost predicate Kept(before: seq<Artifact>, more: seq<Artifact>, disk: Disk, after: seq<Artifact>, k: nat) {
    && k <= |more| && after == before + more[..k] && Addable(before, more[..k], disk)
    && (k < |more| ==> !Addable(before, more[..k + 1], disk))
  }

  /** All the libraries exist, and no two are of the same package and build. */
  ghost predicate Fits(before: seq<Artifact>, more: seq<Artifact>, disk: Disk) {
    && (forall i :: 0 <= i < |more| ==> more[i].rlib in disk)
    && (var all := before + more;
        forall i, j :: 0 <= i < j < |all| ==> all[i].pkg != all[j].pkg || all[i].build != all[j].build)
  }

  lemma FitsMeans(before: seq<Artifact>, more: seq<Artifact>, disk: Disk)
    ensures Fits(before, more, disk) <==> Addable(before, more, disk)
  {
    forall i | 0 <= i < |more| ensures more[i] in more {}
  }

  /** Nothing is wanted, or no message spoils the reading and all libraries exist and keep keys distinct. */
  ghost predicate Readable(ms: seq<Message>, wanted: set<Id>, versions: set<Id>, before: seq<Artifact>, disk: Disk) {
    wanted != {} ==>
      && (forall m :: m in ms ==> !Spoils(m, wanted, versions))
      && var read := Collected(ms, wanted, versions); read.Some? ==> Fits(before, read.value, disk)
  }

  /** What reading the messages leaves registered. */
  ghost predicate HoldsRegistered(ms: seq<Message>, wanted: set<Id>, versions: set<Id>, before: seq<Artifact>,
                                  after: seq<Artifact>)
  {
    if wanted == {} then after == before
    else forall a :: a in after <==> a in before || exists m :: m in ms && Registers(m, wanted, versions, a)
  }

  /** The libraries registered for one kind of artifact, native OpenTelemetry or Tokio. */
  class Registry {
    var records: seq<Artifact>

    constructor ()
      ensures records == []
    {
      records := [];
    }

    method Clear()
      modifies this
      ensures records == []
    {
      records := [];
    }

    /** `add_*_artifacts_from_cargo_json`: nothing is read when nothing is wanted. */
    method Add(ms: seq<Message>, wanted: set<Id>, versions: set<Id>, disk: Disk) returns (ok: bool)
      requires DistinctKeys(records)
      modifies this
      ensures DistinctKeys(records)
      ensures wanted == {} ==> ok && records == old(records)
      ensures wanted != {} ==>
                var read := Collected(ms, wanted, versions);
                && (ok <==> read.Some? && Addable(old(records), read.value, disk))
                && (ok ==> records == old(records) + read.value)
                && (read.None? ==> records == old(records))
                && (read.Some? ==> exists k: nat :: Kept(old(records), read.value, disk, records, k))
      ensures ok <==> Readable(ms, wanted, versions, old(records), disk)
      ensures ok ==> HoldsRegistered(ms, wanted, versions, old(records), records)
      ensures wanted != {} && (exists m :: m in ms && Spoils(m, wanted, versions)) ==> !ok && records == old(records)
    {
      hide Read, DistinctKeys, Spoils, Registers;
      CollectedMeans(ms, wanted, versions);
      if Collected(ms, wanted, versions).Some? { FitsMeans(records, Collected(ms, wanted, versions).value, disk); }
      if wanted == {} { return true; }
      var artifacts := [];
      var i := 0;
      while i < |ms|
        invariant 0 <= i <= |ms|
        invariant Collected(ms[..i], wanted, versions) == Some(artifacts)
      {
        assert ms[..i + 1][..i] == ms[..i] && artifacts + [] == artifacts;
        var reading := Read(ms[i], wanted, versions);
        if reading.Fail? {
          FailureStays(ms, wanted, versions, i + 1);
          return false;
        }
        if reading.Register? { artifacts := artifacts + [reading.artifact]; }
        i := i + 1;
      }
      assert ms[..i] == ms;
      ok := Push(artifacts, disk);
    }

    method Push(artifacts: seq<Artifact>, disk: Disk) returns (ok: bool)
      requires DistinctKeys(records)
      modifies this
      ensures DistinctKeys(records)
      ensures ok <==> Addable(old(records), artifacts, disk)
      ensures ok ==> records == old(records) + artifacts
      ensures exists k: nat :: Kept(old(records), artifacts, disk, records, k)
    {
      hide SameKey;
      ghost var before := records;
      var i := 0;
      while i < |artifacts|
        invariant 0 <= i <= |artifacts|
        invariant records == before + artifacts[..i]
        invariant AllPresent(artifacts[..i], disk) && DistinctKeys(records)
      {
        var a := artifacts[i];
        assert artifacts[..i + 1] == artifacts[..i] + [a];
        if a.rlib !in disk {
          assert a in artifacts && a in artifacts[..i + 1];
          assert Kept(before, artifacts, disk, records, i);
          return false;
        }
        if exists b :: b in records && SameKey(b, a) {
          KeyIsTaken(before, artifacts, i);
          KeyIsTaken(before, artifacts[..i + 1], i);
          assert artifacts[..i + 1][..i] == artifacts[..i];
          assert Kept(before, artifacts, disk, records, i);
          return false;
        }
        records := records + [a];
        i := i + 1;
      }
      assert artifacts[..i] == artifacts;
      assert Kept(before, artifacts, disk, records, i);
      ok := true;
    }
  }

  lemma KeyIsTaken(before: seq<Artifact>, artifacts: seq<Artifact>, i: nat)
    requires i < |artifacts| && exists b :: b in before + artifacts[..i] && SameKey(b, artifacts[i])
    ensures !DistinctKeys(before + artifacts)
  {
    var s := before + artifacts;
    var b :| b in before + artifacts[..i] && SameKey(b, artifacts[i]);
    assert before + artifacts[..i] == s[..|before| + i];
    var j :| 0 <= j < |before| + i && s[j] == b;
    assert s[|before| + i] == artifacts[i];
  }

  lemma {:induction false} FailureStays(ms: seq<Message>, wanted: set<Id>, versions: set<Id>, k: nat)
    requires k <= |ms| && Collected(ms[..k], wanted, versions).None?
    ensures Collected(ms, wanted, versions).None?
    decreases |ms|
  {
    hide Read;
    if k == |ms| {
      assert ms[..k] == ms;
    } else {
      assert ms[..|ms| - 1][..k] == ms[..k];
      FailureStays(ms[..|ms| - 1], wanted, versions, k);
    }
  }

  /** With distinct keys the lookup of a library is never ambiguous. */
  lemma {:induction false} KeysSelectOne(records: seq<Artifact>, pkg: Id, build: string)
    requires DistinctKeys(records)
    ensures |Selected(records, pkg, build)| <= 1
  {
    if records != [] {
      KeysSelectOne(records[1..], pkg, build);
      if Matches(records[0], pkg, build) { NoneSelected(records[1..], records[0], pkg, build, records); }
    }
  }

  lemma NoneSelected(rest: seq<Artifact>, first: Artifact, pkg: Id, build: string, all: seq<Artifact>)
    requires Matches(first, pkg, build) && all == [first] + rest && DistinctKeys(all)
    ensures Selected(rest, pkg, build) == []
  {
    var found := Selected(rest, pkg, build);
    assert found != [] ==> found[0] in rest;
    forall a | a in rest ensures !Matches(a, pkg, build) {
      var j :| 0 <= j < |rest| && rest[j] == a;
      assert !SameKey(all[0], all[j + 1]);
    }
  }

  lemma RegisteredIsNeverAmbiguous(p: SessionPlan, pkg: Option<Id>, records: seq<Artifact>, build: string,
                                   files: Files, ext: Extern)
    requires DistinctKeys(records)
    ensures NativeArtifact(p, pkg, records, build, files, ext) != Unsafe(Ambiguous)
  {
    hide DistinctKeys, Selected;
    if pkg.Some? && pkg.value in p.r4 { KeysSelectOne(records, p.r4[pkg.value], build); }
  }
}
