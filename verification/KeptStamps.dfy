/**
  What invalidation does to packages it does not rebuild. Stamps are swept by name prefix, so a
  package that needed no rebuild keeps its certification exactly when no invalidated name is a
  prefix of its crate name (cargo-instrument/src/main.rs:820-912, 1124-1143).
 */
module KeptStamps {
  import opened Basics
  import opened Reachability
  import opened Session
  import opened LinkSafety
  import opened Stamps
  import opened Artifacts
  import opened Invalidation
  import opened Acquisition

  /** Cargo package names contain no dot. */
  ghost predicate PlainNames(names: set<string>) { forall n :: n in names ==> NoDot(n) }

  /** The files of a message belong to a package that is kept and are no marker files. */
  ghost predicate KeepsFiles(dir: TargetDir, ids: set<Id>, m: Message) {
    m.Compiled? && m.files.Some? && forall f :: f in m.files.value ==>
      !(f in dir.owner && dir.owner[f] in ids) && NotStamp(f.name)
  }

  /** Stamps are nobody's build output and lie in a swept directory. */
  ghost predicate StampsTracked(dir: TargetDir, m: Message) {
    m.Compiled? && m.files.Some? && m.target.Some? && forall f ::
      f in m.files.value && ArtifactStampName(Normalize(m.target.value), f.name).Some? ==>
        var s := StampPath(Normalize(m.target.value), f); s !in dir.owner && s.dir in dir.depsDirs
  }

  ghost predicate PrefixInvalidated(names: set<string>, target: string) {
    exists n :: n in names && Normalize(n) <= Normalize(target)
  }

  /** The stamp of an artifact of this target is swept exactly when an invalidated name is a prefix of the target. */
  lemma StampIsSweptExactly(names: set<string>, target: string, file: string)
    requires PlainNames(names) && ArtifactStampName(Normalize(target), file).Some?
    ensures (exists n :: n in names && Removed(n, ArtifactStampName(Normalize(target), file).value)) <==>
              PrefixInvalidated(names, target)
  {
    hide Normalize, Removed, InstrumentationStampName, FileStem;
    NormalizeTwice(target);
    var norm := Normalize(target);
    var extra := StampExtra(norm, file);
    forall n | n in names
      ensures Removed(n, ArtifactStampName(norm, file).value) <==> Normalize(n) <= norm
    {
      RemovalIsByNamePrefix(n, norm, extra);
    }
  }

  lemma StampExtra(norm: string, file: string) returns (extra: string)
    requires ArtifactStampName(norm, file).Some?
    ensures InstrumentationStampName(norm, extra) == ArtifactStampName(norm, file)
  {
    hide FileStem, InstrumentationStampName;
    var stem := FileStem(file);
    var direct := StripPrefix(stem, norm + "-");
    var hash := if direct.Some? then direct else StripPrefix(stem, "lib" + norm + "-");
    extra := if hash.Some? then "-" + hash.value else "";
  }

  /** After the sweep a counted file still counts, and its stamp is there unless it was swept. */
  lemma FileAfterwards(dir: TargetDir, ids: set<Id>, disk: Disk, m: Message, f: Path)
    requires KeepsFiles(dir, ids, m) && StampsTracked(dir, m) && f in m.files.value
    requires PlainNames(RequestedNames(dir.pkgs, ids))
    ensures var norm := Normalize(m.target.value);
            var after := AfterInvalidation(dir, ids, disk);
            && (f in after <==> f in disk) && (f in disk ==> after[f] == disk[f])
            && (Counts(norm, disk, f) ==>
                 var s := StampPath(norm, f);
                 if PrefixInvalidated(RequestedNames(dir.pkgs, ids), m.target.value) then s !in after
                 else (s in after <==> s in disk) && (s in disk ==> after[s] == disk[s]))
  {
    hide Normalize, Removed, ArtifactStampName, RequestedNames;
    var norm := Normalize(m.target.value);
    var names := RequestedNames(dir.pkgs, ids);
    if Counts(norm, disk, f) { StampIsSweptExactly(names, m.target.value, f.name); }
  }

  /** A certified artifact stays certified exactly when no invalidated name is a prefix of its crate name. */
  lemma CertificationIsKept(dir: TargetDir, ids: set<Id>, disk: Disk, m: Message)
    requires Certified(m, disk) && KeepsFiles(dir, ids, m) && StampsTracked(dir, m)
    requires PlainNames(RequestedNames(dir.pkgs, ids))
    ensures Certified(m, AfterInvalidation(dir, ids, disk)) <==>
              !PrefixInvalidated(RequestedNames(dir.pkgs, ids), m.target.value)
  {
    hide Normalize, AfterInvalidation, ArtifactStampName, RequestedNames, KeepsFiles, StampsTracked, PrefixInvalidated,
         StampPath, PlainNames;
    var norm := Normalize(m.target.value);
    var after := AfterInvalidation(dir, ids, disk);
    forall f | f in m.files.value
      ensures Counts(norm, after, f) <==> Counts(norm, disk, f)
      ensures Counts(norm, disk, f) ==> after[f] == disk[f]
      ensures Counts(norm, disk, f) ==>
                 var s := StampPath(norm, f);
                 if PrefixInvalidated(RequestedNames(dir.pkgs, ids), m.target.value) then s !in after
                 else (s in after <==> s in disk) && (s in disk ==> after[s] == disk[s])
    {
      FileAfterwards(dir, ids, disk, m, f);
    }
    var f :| f in m.files.value && Counts(norm, disk, f);
    if PrefixInvalidated(RequestedNames(dir.pkgs, ids), m.target.value) {
      assert !Vouches(norm, after, f, f);
    } else {
      forall g, h | g in m.files.value && h in m.files.value && Counts(norm, after, g) && Counts(norm, after, h)
        ensures Vouches(norm, after, g, h)
      {
        assert Vouches(norm, disk, g, h);
      }
    }
  }

  /** The messages of a package. */
  predicate MessageOf(ms: seq<Message>, id: Id, m: Message) { m in ms && m.Compiled? && m.pkg == Some(id) }

  /**
    A package that needed no rebuild still needs none on the disk left behind, exactly when no
    invalidated name is a prefix of one of its crate names. Otherwise it is dirty for the next
    acquisition, which then invalidates it (`Orchestrator.Acquire`).
   */
  lemma SettledIsKept(dir: TargetDir, ids: set<Id>, disk: Disk, ms: seq<Message>, desired: set<Id>, id: Id)
    requires Settled(ms, disk, id) && id in desired
    requires forall m :: MessageOf(ms, id, m) ==> KeepsFiles(dir, ids, m) && StampsTracked(dir, m)
    requires PlainNames(RequestedNames(dir.pkgs, ids))
    ensures Dirty(ms, desired, AfterInvalidation(dir, ids, disk), id) <==>
              exists m :: MessageOf(ms, id, m) && PrefixInvalidated(RequestedNames(dir.pkgs, ids), m.target.value)
  {
    hide AfterInvalidation, RequestedNames, Certified, KeepsFiles, PrefixInvalidated, PlainNames, StampsTracked;
    forall m | MessageOf(ms, id, m)
      ensures m.target.Some?
      ensures Certified(m, AfterInvalidation(dir, ids, disk)) <==>
                !PrefixInvalidated(RequestedNames(dir.pkgs, ids), m.target.value)
    {
      TrackedHasTarget(dir, m);
      CertificationIsKept(dir, ids, disk, m);
    }
  }

  lemma TrackedHasTarget(dir: TargetDir, m: Message)
    requires StampsTracked(dir, m)
    ensures m.target.Some?
  {
  }
}
