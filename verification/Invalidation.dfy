/**
  Selective invalidation: `cargo clean` works by package name, the request is a set of package
  ids (cargo-instrument/src/main.rs:1007-1145).
 */
module Invalidation {
  import opened Basics
  import opened Reachability
  import opened Stamps
  import Session
  import opened Artifacts

  datatype Package = Package(id: Id, name: string)

  datatype Failure = Unnamed(id: Id) | SharesRetainedName(name: string) | PartialName(name: string) | CleanFailed

  datatype Outcome<T> = Done(value: T) | Failed(why: Failure)

  /** How one `cargo clean` ends; a failing one may have removed some of what it was asked to. */
  datatype CleanResult = Cleaned | Broken(removed: set<Id>)

  const CHUNK := 50

  // ---------------------------------------------------------------------------
  // Names
  // ---------------------------------------------------------------------------

  /** The name map keeps the last entry of an id. */
  function NameOf(pkgs: seq<Package>, id: Id): (r: Option<string>)
    ensures r.Some? ==> Package(id, r.value) in pkgs
    ensures r.None? ==> forall p :: p in pkgs ==> p.id != id
  {
    if pkgs == [] then None
    else
      var last := pkgs[|pkgs| - 1];
      assert pkgs == pkgs[..|pkgs| - 1] + [last];
      if last.id == id then Some(last.name) else NameOf(pkgs[..|pkgs| - 1], id)
  }

  /** A search finds the first entry of an id. */
  function FirstName(pkgs: seq<Package>, id: Id): (r: Option<string>)
    ensures r.Some? ==> Package(id, r.value) in pkgs
    ensures r.None? ==> forall p :: p in pkgs ==> p.id != id
  {
    if pkgs == [] then None
    else
      assert pkgs == [pkgs[0]] + pkgs[1..];
      if pkgs[0].id == id then Some(pkgs[0].name) else FirstName(pkgs[1..], id)
  }

  /** Every entry with that name, in order. */
  function IdsNamed(pkgs: seq<Package>, name: string): (r: seq<Id>)
    ensures forall id :: id in r <==> Package(id, name) in pkgs
  {
    if pkgs == [] then []
    else
      assert pkgs == [pkgs[0]] + pkgs[1..];
      (if pkgs[0].name == name then [pkgs[0].id] else []) + IdsNamed(pkgs[1..], name)
  }

  /** Package ids identify packages, as Cargo promises. */
  ghost predicate UniqueIds(pkgs: seq<Package>) { forall i, j :: 0 <= i < j < |pkgs| ==> pkgs[i].id != pkgs[j].id }

  /** The names of the requested ids. */
  ghost function RequestedNames(pkgs: seq<Package>, ids: set<Id>): set<string> {
    set id | id in ids && NameOf(pkgs, id).Some? :: NameOf(pkgs, id).value
  }

  /** The requested ids with one name. */
  function Share(pkgs: seq<Package>, ids: set<Id>, name: string): set<Id> {
    set id | id in ids && NameOf(pkgs, id) == Some(name)
  }

  /** Every package a clean by these names hits. */
  ghost predicate Hit(pkgs: seq<Package>, names: set<string>, id: Id) {
    exists name :: name in names && Package(id, name) in pkgs
  }

  // ---------------------------------------------------------------------------
  // The checks
  // ---------------------------------------------------------------------------

  /** A clean by this name removes exactly the requested ids that have it, as far as counting can tell. */
  predicate CountsAgree(pkgs: seq<Package>, ids: set<Id>, name: string) {
    |IdsNamed(pkgs, name)| <= 1 || |Share(pkgs, ids, name)| == |IdsNamed(pkgs, name)|
  }

  ghost predicate NameRetained(pkgs: seq<Package>, retained: set<Id>, name: string) {
    exists id :: id in retained && FirstName(pkgs, id) == Some(name)
  }

  /** The checks made before anything is removed. */
  ghost predicate Permitted(pkgs: seq<Package>, ids: set<Id>, retained: set<Id>) {
    && (forall id :: id in ids ==> NameOf(pkgs, id).Some?)
    && (forall name :: name in RequestedNames(pkgs, ids) ==>
          !NameRetained(pkgs, retained, name) && CountsAgree(pkgs, ids, name))
  }

  ghost predicate Distinct(s: seq<Id>) { forall i, j :: 0 <= i < j < |s| ==> s[i] != s[j] }

  lemma {:induction false} DistinctCount(s: seq<Id>)
    ensures |set x | x in s| <= |s|
    ensures Distinct(s) ==> |set x | x in s| == |s|
  {
    if s != [] {
      DistinctCount(s[1..]);
      var rest := set x | x in s[1..];
      assert (set x | x in s) == rest + {s[0]} by { assert s == [s[0]] + s[1..]; }
      if Distinct(s) { assert s[0] !in rest; }
    }
  }

  lemma SubsetOfSameSize<T>(a: set<T>, b: set<T>)
    requires a <= b && |a| == |b|
    ensures a == b
  {
    if x :| x in b && x !in a {
      SubsetSize(a, b - {x});
      assert false;
    }
  }

  lemma ShareIsNamed(pkgs: seq<Package>, ids: set<Id>, name: string)
    ensures Share(pkgs, ids, name) <= set id | id in IdsNamed(pkgs, name)
  {
  }

  /** Counting is enough: when the counts agree, the ids with this name are precisely the requested ones. */
  lemma CountsAreExact(pkgs: seq<Package>, ids: set<Id>, name: string)
    requires CountsAgree(pkgs, ids, name) && Share(pkgs, ids, name) != {}
    ensures Share(pkgs, ids, name) == set id | id in IdsNamed(pkgs, name)
  {
    hide NameOf, Share;
    var all := set id | id in IdsNamed(pkgs, name);
    var share := Share(pkgs, ids, name);
    DistinctCount(IdsNamed(pkgs, name));
    ShareIsNamed(pkgs, ids, name);
    SubsetSize(share, all);
    SubsetSize({}, share);
    assert |share| > 0;
    SubsetOfSameSize(share, all);
  }

  /** A permitted clean by name is exact by id. */
  lemma PermittedIsExact(pkgs: seq<Package>, ids: set<Id>, retained: set<Id>)
    requires Permitted(pkgs, ids, retained)
    ensures forall id :: Hit(pkgs, RequestedNames(pkgs, ids), id) <==> id in ids
  {
    hide NameOf, CountsAgree;
    var names := RequestedNames(pkgs, ids);
    forall id | Hit(pkgs, names, id) ensures id in ids {
      var name :| name in names && Package(id, name) in pkgs;
      var other :| other in ids && NameOf(pkgs, other) == Some(name);
      assert other in Share(pkgs, ids, name);
      CountsAreExact(pkgs, ids, name);
      assert id in IdsNamed(pkgs, name);
      assert id in Share(pkgs, ids, name);
    }
    forall id | id in ids ensures Hit(pkgs, names, id) {
      assert NameOf(pkgs, id).value in names;
    }
  }

  lemma UniqueName(pkgs: seq<Package>, p: Package, q: Package)
    requires UniqueIds(pkgs) && p in pkgs && q in pkgs && p.id == q.id
    ensures p == q
  {
    var i :| 0 <= i < |pkgs| && pkgs[i] == p;
    var j :| 0 <= j < |pkgs| && pkgs[j] == q;
    assert i == j;
  }

  /** With unique ids nothing retained is requested. */
  lemma PermittedSparesRetained(pkgs: seq<Package>, ids: set<Id>, retained: set<Id>)
    requires UniqueIds(pkgs) && Permitted(pkgs, ids, retained)
    ensures ids !! retained
  {
    hide NameOf, FirstName, CountsAgree, UniqueIds;
    forall id | id in ids ensures id !in retained {
      var name := NameOf(pkgs, id).value;
      assert name in RequestedNames(pkgs, ids);
      if FirstName(pkgs, id).Some? { UniqueName(pkgs, Package(id, name), Package(id, FirstName(pkgs, id).value)); }
    }
  }

  lemma {:induction false} NamedIdsAreDistinct(pkgs: seq<Package>, name: string)
    requires UniqueIds(pkgs)
    ensures Distinct(IdsNamed(pkgs, name))
  {
    if pkgs != [] {
      NamedIdsAreDistinct(pkgs[1..], name);
      var rest := IdsNamed(pkgs[1..], name);
      forall j | 0 <= j < |rest| ensures pkgs[0].name == name ==> rest[j] != pkgs[0].id {
        assert rest[j] in rest;
        var k :| 0 <= k < |pkgs[1..]| && pkgs[1..][k] == Package(rest[j], name);
        assert pkgs[k + 1].id == rest[j];
      }
      var first := if pkgs[0].name == name then [pkgs[0].id] else [];
      assert IdsNamed(pkgs, name) == first + rest;
    }
  }

  /**
    With unique ids the checks say exactly this: every requested id is known, no retained package
    shares a name with a requested one, and every package sharing a name with a requested one is
    requested.
   */
  lemma {:induction false} PermittedMeans(pkgs: seq<Package>, ids: set<Id>, retained: set<Id>)
    requires UniqueIds(pkgs)
    ensures Permitted(pkgs, ids, retained) <==>
              && (forall id :: id in ids ==> NameOf(pkgs, id).Some?)
              && (forall id :: id in retained && FirstName(pkgs, id).Some? ==>
                    FirstName(pkgs, id).value !in RequestedNames(pkgs, ids))
              && (forall id :: Hit(pkgs, RequestedNames(pkgs, ids), id) ==> id in ids)
  {
    hide NameOf, FirstName, UniqueIds, IdsNamed, CountsAgree;
    if Permitted(pkgs, ids, retained) {
      PermittedIsExact(pkgs, ids, retained);
    } else if
      && (forall id :: id in ids ==> NameOf(pkgs, id).Some?)
      && (forall id :: Hit(pkgs, RequestedNames(pkgs, ids), id) ==> id in ids)
    {
      forall name | name in RequestedNames(pkgs, ids) ensures CountsAgree(pkgs, ids, name) {
        CoveredCountsAgree(pkgs, ids, name);
      }
    }
  }

  lemma CoveredCountsAgree(pkgs: seq<Package>, ids: set<Id>, name: string)
    requires UniqueIds(pkgs) && name in RequestedNames(pkgs, ids)
    requires forall id :: Hit(pkgs, RequestedNames(pkgs, ids), id) ==> id in ids
    ensures CountsAgree(pkgs, ids, name)
  {
    hide FirstName, UniqueIds, NameOf;
    var s := IdsNamed(pkgs, name);
    NamedIdsAreDistinct(pkgs, name);
    DistinctCount(s);
    forall id | id in s ensures id in Share(pkgs, ids, name) {
      assert Hit(pkgs, RequestedNames(pkgs, ids), id);
      if NameOf(pkgs, id).Some? { UniqueName(pkgs, Package(id, name), Package(id, NameOf(pkgs, id).value)); }
    }
    ShareIsNamed(pkgs, ids, name);
    assert Share(pkgs, ids, name) == set id | id in s;
  }

  // ---------------------------------------------------------------------------
  // The target directory
  // ---------------------------------------------------------------------------

  /** Build output: which packages were cleaned, and the files that are left. */
  class TargetDir {
    const pkgs: seq<Package>
    /** The package whose build produced a file. */
    const owner: map<Path, Id>
    /** `debug/deps` and `release/deps`. */
    const depsDirs: set<seq<string>>
    var cleaned: set<Id>
    var disk: Disk

    constructor (pkgs: seq<Package>, owner: map<Path, Id>, depsDirs: set<seq<string>>, disk: Disk)
      ensures this.pkgs == pkgs && this.owner == owner && this.depsDirs == depsDirs
      ensures cleaned == {} && this.disk == disk
    {
      this.pkgs, this.owner, this.depsDirs, this.cleaned, this.disk := pkgs, owner, depsDirs, {}, disk;
    }

    /** Remove all files of these packages. */
    method RemoveFilesOf(ids: set<Id>)
      modifies this
      ensures cleaned == old(cleaned) + ids
      ensures disk == WithoutFilesOf(owner, ids, old(disk))
    {
      cleaned := cleaned + ids;
      disk := WithoutFilesOf(owner, ids, disk);
    }

    /** `cargo clean --package <name> ...`. */
    method CargoClean(names: seq<string>, result: CleanResult) returns (ok: bool)
      modifies this
      ensures ok <==> result.Cleaned?
      ensures old(cleaned) <= cleaned
      ensures ok ==> forall id :: id in cleaned <==> id in old(cleaned) || Hit(pkgs, SetOf(names), id)
      ensures ok ==> disk == WithoutFilesOf(owner, HitIds(pkgs, names), old(disk))
    {
      hide WithoutFilesOf;
      var hit := HitIds(pkgs, names);
      if result.Cleaned? {
        RemoveFilesOf(hit);
        ok := true;
      } else {
        RemoveFilesOf(hit * result.removed);
        ok := false;
      }
    }

    /** The sweep over both profiles that deletes the stamps of the cleaned packages. */
    method RemoveStamps(names: seq<string>)
      modifies this`disk
      ensures disk == WithoutStamps(depsDirs, SetOf(names), old(disk))
    {
      hide Removed;
      disk := map f |
        f in disk && !(f.dir in depsDirs && exists name :: name in names && Removed(name, f.name)) :: disk[f];
      assert disk == WithoutStamps(depsDirs, SetOf(names), old(disk));
    }
  }

  function SetOf(names: seq<string>): set<string> { set name | name in names }

  function HitIds(pkgs: seq<Package>, names: seq<string>): (r: set<Id>)
    ensures forall id :: id in r <==> Hit(pkgs, SetOf(names), id)
  {
    var r := set name, id | name in names && id in IdsNamed(pkgs, name) :: id;
    assert forall id :: Hit(pkgs, SetOf(names), id) <==> exists name :: name in names && id in IdsNamed(pkgs, name);
    r
  }

  function WithoutFilesOf(owner: map<Path, Id>, ids: set<Id>, disk: Disk): Disk {
    map f | f in disk && !(f in owner && owner[f] in ids) :: disk[f]
  }

  function WithoutStamps(depsDirs: set<seq<string>>, names: set<string>, disk: Disk): Disk {
    map f | f in disk && !(f.dir in depsDirs && exists name :: name in names && Removed(name, f.name)) :: disk[f]
  }

  // ---------------------------------------------------------------------------
  // Invalidation
  // ---------------------------------------------------------------------------

  /** Which check a refusal reports. */
  ghost predicate Refuses(pkgs: seq<Package>, ids: set<Id>, retained: set<Id>, why: Failure) {
    match why
    case Unnamed(id) => id in ids && NameOf(pkgs, id).None?
    case SharesRetainedName(name) => name in RequestedNames(pkgs, ids) && NameRetained(pkgs, retained, name)
    case PartialName(name) => name in RequestedNames(pkgs, ids) && !CountsAgree(pkgs, ids, name)
    case CleanFailed => false
  }

  method NamesToClean(pkgs: seq<Package>, ids: set<Id>) returns (r: Outcome<seq<string>>)
    ensures r.Done? ==> SetOf(r.value) == RequestedNames(pkgs, ids) && forall id :: id in ids ==> NameOf(pkgs, id).Some?
    ensures r.Failed? ==> r.why.Unnamed? && r.why.id in ids && NameOf(pkgs, r.why.id).None?
  {
    hide NameOf;
    var names := [];
    var left := ids;
    while left != {}
      invariant left <= ids
      invariant forall id :: id in ids - left ==> NameOf(pkgs, id).Some?
      invariant SetOf(names) == RequestedNames(pkgs, ids - left)
      decreases |left|
    {
      var id :| id in left;
      var name := NameOf(pkgs, id);
      if name.None? { return Failed(Unnamed(id)); }
      OneMoreName(pkgs, ids - left, id, names);
      if name.value !in names { names := names + [name.value]; }
      left := left - {id};
      assert ids - left == (ids - left - {id}) + {id};
    }
    assert ids - left == ids;
    r := Done(names);
  }

  lemma OneMoreName(pkgs: seq<Package>, done: set<Id>, id: Id, names: seq<string>)
    requires SetOf(names) == RequestedNames(pkgs, done) && NameOf(pkgs, id).Some?
    ensures RequestedNames(pkgs, done + {id}) == RequestedNames(pkgs, done) + {NameOf(pkgs, id).value}
    ensures SetOf(names + [NameOf(pkgs, id).value]) == RequestedNames(pkgs, done + {id})
    ensures NameOf(pkgs, id).value in names ==> SetOf(names) == RequestedNames(pkgs, done + {id})
  {
    hide NameOf;
    assert RequestedNames(pkgs, done + {id}) == RequestedNames(pkgs, done) + {NameOf(pkgs, id).value};
    assert SetOf(names + [NameOf(pkgs, id).value]) == SetOf(names) + {NameOf(pkgs, id).value};
  }

  /** The checks, in order; nothing has been removed yet. */
  method Check(pkgs: seq<Package>, ids: set<Id>, retained: set<Id>) returns (r: Outcome<seq<string>>)
    ensures r.Done? ==> Permitted(pkgs, ids, retained) && SetOf(r.value) == RequestedNames(pkgs, ids)
    ensures r.Failed? ==> !Permitted(pkgs, ids, retained) && Refuses(pkgs, ids, retained, r.why)
  {
    hide NameOf, FirstName, CountsAgree, RequestedNames;
    r := NamesToClean(pkgs, ids);
    if r.Failed? { return; }
    var names := r.value;
    assert forall name :: name in names <==> name in RequestedNames(pkgs, ids) by {
      assert SetOf(names) == RequestedNames(pkgs, ids);
    }
    var i := 0;
    while i < |names|
      invariant 0 <= i <= |names|
      invariant forall k :: 0 <= k < i ==> !NameRetained(pkgs, retained, names[k])
    {
      if exists id :: id in retained && FirstName(pkgs, id) == Some(names[i]) {
        assert names[i] in names && NameRetained(pkgs, retained, names[i]);
        return Failed(SharesRetainedName(names[i]));
      }
      i := i + 1;
    }
    i := 0;
    while i < |names|
      invariant 0 <= i <= |names|
      invariant forall k :: 0 <= k < i ==> CountsAgree(pkgs, ids, names[k])
    {
      if !CountsAgree(pkgs, ids, names[i]) { return Failed(PartialName(names[i])); }
      i := i + 1;
    }
    r := Done(names);
  }

  /** The state of the directory once the packages hit by `names` have been removed. */
  ghost predicate CleanedUpTo(dir: TargetDir, cleaned0: set<Id>, disk0: Disk, names: seq<string>)
    reads dir
  {
    && (forall id :: id in dir.cleaned <==> id in cleaned0 || Hit(dir.pkgs, SetOf(names), id))
    && dir.disk == WithoutFilesOf(dir.owner, HitIds(dir.pkgs, names), disk0)
  }

  lemma HitsOfBoth(pkgs: seq<Package>, a: seq<string>, b: seq<string>)
    ensures HitIds(pkgs, a + b) == HitIds(pkgs, a) + HitIds(pkgs, b)
    ensures forall id :: Hit(pkgs, SetOf(a + b), id) <==> Hit(pkgs, SetOf(a), id) || Hit(pkgs, SetOf(b), id)
  {
    hide HitIds;
    forall id ensures Hit(pkgs, SetOf(a + b), id) <==> Hit(pkgs, SetOf(a), id) || Hit(pkgs, SetOf(b), id) {
      assert SetOf(a + b) == SetOf(a) + SetOf(b);
    }
  }

  lemma RemovalsCompose(owner: map<Path, Id>, a: set<Id>, b: set<Id>, disk: Disk)
    ensures WithoutFilesOf(owner, b, WithoutFilesOf(owner, a, disk)) == WithoutFilesOf(owner, a + b, disk)
  {
  }

  /** Clean in chunks of 50 names. */
  method CleanAll(dir: TargetDir, names: seq<string>, results: nat -> CleanResult) returns (ok: bool)
    modifies dir
    ensures old(dir.cleaned) <= dir.cleaned
    ensures ok ==> CleanedUpTo(dir, old(dir.cleaned), old(dir.disk), names)
    ensures ok <==> forall k: nat :: 50 * k < |names| ==> results(k).Cleaned?
    ensures !ok ==> exists k: nat :: 50 * k < |names| && results(k).Broken?
  {
    hide HitIds, WithoutFilesOf, Hit;
    ghost var cleaned0 := dir.cleaned;
    ghost var disk0 := dir.disk;
    NothingCleaned(dir, disk0);
    var from := 0;
    var k := 0;
    while from < |names|
      invariant 0 <= from <= |names| && cleaned0 <= dir.cleaned
      invariant from == if 50 * k < |names| then 50 * k else |names|
      invariant forall j: nat :: j < k ==> results(j).Cleaned?
      invariant CleanedUpTo(dir, cleaned0, disk0, names[..from])
    {
      var next := if from + CHUNK < |names| then from + CHUNK else |names|;
      var chunk := names[from..next];
      ok := dir.CargoClean(chunk, results(k));
      if !ok { return; }
      assert names[..next] == names[..from] + chunk;
      HitsOfBoth(dir.pkgs, names[..from], chunk);
      RemovalsCompose(dir.owner, HitIds(dir.pkgs, names[..from]), HitIds(dir.pkgs, chunk), disk0);
      from, k := next, k + 1;
    }
    assert names[..from] == names;
    ok := true;
  }

  lemma NothingCleaned(dir: TargetDir, disk0: Disk)
    requires dir.disk == disk0
    ensures CleanedUpTo(dir, dir.cleaned, disk0, [])
  {
    assert SetOf([]) == {};
    assert HitIds(dir.pkgs, []) == {};
  }

  /** What is left after exactly these packages and their stamps are gone. */
  ghost function AfterInvalidation(dir: TargetDir, ids: set<Id>, disk: Disk): Disk {
    WithoutStamps(dir.depsDirs, RequestedNames(dir.pkgs, ids), WithoutFilesOf(dir.owner, ids, disk))
  }

  /**
    `invalidate_packages`. Success is exact: the requested ids are cleaned and no other package
    is, although cleaning goes by name. A refusal touches nothing.
   */
  method Invalidate(dir: TargetDir, ids: set<Id>, retained: set<Id>, results: nat -> CleanResult)
    returns (r: Outcome<()>)
    modifies dir
    ensures ids == {} ==> r.Done? && dir.disk == old(dir.disk)
    ensures r.Done? ==> dir.cleaned == old(dir.cleaned) + ids && dir.disk == AfterInvalidation(dir, ids, old(dir.disk))
    ensures r.Done? && ids != {} ==> Permitted(dir.pkgs, ids, retained)
    ensures r.Failed? && r.why != CleanFailed ==>
              && Refuses(dir.pkgs, ids, retained, r.why) && !Permitted(dir.pkgs, ids, retained)
              && dir.cleaned == old(dir.cleaned) && dir.disk == old(dir.disk)
    ensures r == Failed(CleanFailed) ==> Permitted(dir.pkgs, ids, retained) && exists k: nat :: results(k).Broken?
    ensures old(dir.cleaned) <= dir.cleaned
  {
    hide HitIds, WithoutFilesOf, WithoutStamps, Hit, Permitted, RequestedNames, Refuses;
    if ids == {} {
      NothingToInvalidate(dir, dir.disk);
      return Done(());
    }
    var checked := Check(dir.pkgs, ids, retained);
    if checked.Failed? {
      assert checked.why != CleanFailed by { RefusalIsNoCleanFailure(dir.pkgs, ids, retained, checked.why); }
      return Failed(checked.why);
    }
    var names := checked.value;
    var ok := CleanAll(dir, names, results);
    if !ok { return Failed(CleanFailed); }
    PermittedIsExact(dir.pkgs, ids, retained);
    assert HitIds(dir.pkgs, names) == ids;
    dir.RemoveStamps(names);
    r := Done(());
  }

  lemma NothingToInvalidate(dir: TargetDir, disk: Disk)
    ensures AfterInvalidation(dir, {}, disk) == disk
  {
  }

  lemma RefusalIsNoCleanFailure(pkgs: seq<Package>, ids: set<Id>, retained: set<Id>, why: Failure)
    requires Refuses(pkgs, ids, retained, why)
    ensures why != CleanFailed
  {
  }
}
