/**
  Names of the marker files that certify rewritten artifacts: what the wrapper writes and what
  the orchestrator derives from an artifact's file name (cargo-instrument/src/unit.rs:37-68,
  cargo-instrument/src/main.rs:914-931, 1124-1143, cargo-instrument/src/wrapper.rs:454-469).
 */
module Stamps {
  import opened Basics
  import opened Session

  const PREFIX := ".cargo-instrument-transformed-"
  const SUFFIX := ".stamp"

  predicate HashChar(c: char) { '0' <= c <= '9' || 'A' <= c <= 'Z' || 'a' <= c <= 'z' || c == '_' }

  predicate ValidHash(h: string) { h != "" && forall i :: 0 <= i < |h| ==> HashChar(h[i]) }

  /** `UnitId::instrumentation_stamp_name`. */
  function InstrumentationStampName(crateName: string, extra: string): Option<string> {
    var norm := Normalize(crateName);
    if extra == "" then Some(PREFIX + norm + SUFFIX)
    else if extra[0] != '-' || !ValidHash(extra[1..]) then None
    else Some(PREFIX + norm + extra + SUFFIX)
  }

  /** The name is fixed by the crate name and the hash, and there is one exactly for an alphanumeric hash or none. */
  lemma StampNameMeans(crateName: string, extra: string)
    ensures InstrumentationStampName(crateName, extra).Some? <==>
              || extra == ""
              || (|extra| > 1 && extra[0] == '-'
                  && forall i :: 0 < i < |extra| ==>
                       || '0' <= extra[i] <= '9' || 'a' <= extra[i] <= 'z' || 'A' <= extra[i] <= 'Z' || extra[i] == '_')
    ensures InstrumentationStampName(crateName, extra).Some? ==>
              InstrumentationStampName(crateName, extra).value
              == ".cargo-instrument-transformed-" + Normalize(crateName) + extra + ".stamp"
  {
    assert forall i :: 0 < i < |extra| ==> extra[i] == extra[1..][i - 1];
    assert forall i :: 0 <= i < |extra| - 1 ==> extra[1..][i] == extra[i + 1];
  }

  /** `file_stem`: the name up to its last dot, unless that dot starts the name. */
  function FileStem(name: string): string {
    if LastDot(name, |name|) <= 0 then name else name[..LastDot(name, |name|)]
  }

  function LastDot(name: string, n: nat): (k: int)
    requires n <= |name|
    ensures -1 <= k < n && (k >= 0 ==> name[k] == '.')
    ensures forall i :: k < i < n ==> name[i] != '.'
  {
    if n == 0 then -1 else if name[n - 1] == '.' then n - 1 else LastDot(name, n - 1)
  }

  /** A name loses what follows its last dot, and the dot, unless there is none or it comes first. */
  lemma FileStemMeans(name: string)
    ensures (forall i :: 0 < i < |name| ==> name[i] != '.') ==> FileStem(name) == name
    ensures forall k :: 0 < k < |name| && name[k] == '.' && NoDot(name[k + 1..]) ==> FileStem(name) == name[..k]
  {
    var last := LastDot(name, |name|);
    forall k | 0 < k < |name| && name[k] == '.' && NoDot(name[k + 1..]) ensures FileStem(name) == name[..k] {
      forall i | k < i < |name| ensures name[i] != '.' { assert name[k + 1..][i - k - 1] == name[i]; }
      assert last == k;
    }
  }

  function StripPrefix(s: string, p: string): Option<string> { if p <= s then Some(s[|p|..]) else None }

  /** `artifact_stamp_name`, on the file name of the artifact. */
  function ArtifactStampName(target: string, file: string): Option<string> {
    var stem := FileStem(file);
    var direct := StripPrefix(stem, target + "-");
    var hash := if direct.Some? then direct else StripPrefix(stem, "lib" + target + "-");
    if hash.Some? then InstrumentationStampName(target, "-" + hash.value)
    else if stem == target || stem == "lib" + target then InstrumentationStampName(target, "")
    else None
  }

  predicate NoDash(s: string) { forall i :: 0 <= i < |s| ==> s[i] != '-' }

  predicate NoDot(s: string) { forall i :: 0 <= i < |s| ==> s[i] != '.' }

  lemma NormalizeKeeps(name: string)
    requires NoDash(name)
    ensures Normalize(name) == name
  {
  }

  // ---------------------------------------------------------------------------
  // Reader and writer
  // ---------------------------------------------------------------------------

  lemma StemOfArtifact(stem: string, ext: string)
    requires stem != "" && NoDot(ext)
    ensures FileStem(stem + "." + ext) == stem
  {
    var name := stem + "." + ext;
    assert name[|stem|] == '.';
    assert forall i :: |stem| < i < |name| ==> name[i] == ext[i - |stem| - 1];
    assert LastDot(name, |name|) == |stem|;
  }

  /** A `lib` artifact is never mistaken for one without the prefix. */
  lemma LibIsNotDirect(norm: string, extra: string)
    requires NoDash(norm)
    ensures !(norm + "-" <= "lib" + norm + extra) && norm != "lib" + norm + extra
  {
    var s := "lib" + norm + extra;
    if |norm| < 3 {
      assert s[|norm|] == "lib"[|norm|];
    } else {
      assert s[|norm|] == norm[|norm| - 3];
    }
    var p := norm + "-";
    assert p[|norm|] == '-';
  }

  lemma LibraryHash(norm: string, extra: string)
    requires extra != "" && extra[0] == '-'
    ensures StripPrefix("lib" + norm + extra, "lib" + norm + "-") == Some(extra[1..])
    ensures StripPrefix(norm + extra, norm + "-") == Some(extra[1..])
    ensures extra == "-" + extra[1..]
  {
    assert extra == "-" + extra[1..];
    assert "lib" + norm + extra == ("lib" + norm + "-") + extra[1..];
    assert norm + extra == (norm + "-") + extra[1..];
  }

  lemma NoLibraryHash(norm: string, extra: string)
    requires extra == "" || extra[0] != '-'
    ensures StripPrefix("lib" + norm + extra, "lib" + norm + "-") == None
    ensures StripPrefix(norm + extra, norm + "-") == None
  {
    if extra != "" {
      assert ("lib" + norm + extra)[3 + |norm|] == extra[0] && ("lib" + norm + "-")[3 + |norm|] == '-';
      assert (norm + extra)[|norm|] == extra[0] && (norm + "-")[|norm|] == '-';
    }
  }

  /** For artifacts with the `lib` prefix the reader derives exactly the name the wrapper writes. */
  lemma LibraryStampsAgree(crateName: string, extra: string, ext: string)
    requires NoDot(ext)
    ensures var norm := Normalize(crateName);
            ArtifactStampName(norm, "lib" + norm + extra + "." + ext) == InstrumentationStampName(crateName, extra)
  {
    hide Normalize, FileStem, ValidHash, StripPrefix;
    var norm := Normalize(crateName);
    NormalizeKeeps(norm);
    var stem := "lib" + norm + extra;
    StemOfArtifact(stem, ext);
    LibIsNotDirect(norm, extra);
    assert StripPrefix(stem, norm + "-") == None by { StripsOnlyPrefix(stem, norm + "-"); }
    if extra != "" && extra[0] == '-' {
      LibraryHash(norm, extra);
    } else {
      NoLibraryHash(norm, extra);
      assert stem == "lib" + norm <==> extra == "";
    }
  }

  lemma StripsOnlyPrefix(s: string, p: string)
    ensures StripPrefix(s, p).Some? <==> p <= s
  {
  }

  /**
    An artifact without the prefix is misread when it looks like a library of its own target:
    rustc's extra file name would have to lack its dash and the target repeat "lib".
   */
  predicate LooksLikeLibrary(norm: string, extra: string) {
    || norm + extra == "lib" + norm
    || ("lib" + norm + "-" <= norm + extra && ValidHash((norm + extra)[|norm| + 4..]))
  }

  /** Without the prefix, reader and writer agree exactly unless the artifact looks like a library. */
  lemma DirectStampsAgree(crateName: string, extra: string, ext: string)
    requires NoDot(ext) && Normalize(crateName) + extra != ""
    ensures var norm := Normalize(crateName);
            ArtifactStampName(norm, norm + extra + "." + ext) == InstrumentationStampName(crateName, extra)
            <==> extra == "" || extra[0] == '-' || !LooksLikeLibrary(norm, extra)
  {
    hide Normalize, FileStem, ValidHash, StripPrefix;
    var norm := Normalize(crateName);
    NormalizeKeeps(norm);
    var stem := norm + extra;
    StemOfArtifact(stem, ext);
    if extra != "" && extra[0] == '-' {
      LibraryHash(norm, extra);
    } else {
      NoLibraryHash(norm, extra);
      LibraryStem(norm, stem);
    }
  }

  lemma LibraryStem(norm: string, stem: string)
    ensures var hash := StripPrefix(stem, "lib" + norm + "-");
            && (hash.Some? <==> "lib" + norm + "-" <= stem)
            && (hash.Some? ==>
                && hash.value == stem[|norm| + 4..]
                && ("-" + hash.value)[0] == '-' && ("-" + hash.value)[1..] == hash.value)
  {
  }

  /** The dash is needed: crate `lib`, extra file name `lib-abc`. */
  lemma DashlessExtraIsMisread()
    ensures InstrumentationStampName("lib", "lib-abc") == None
    ensures ArtifactStampName("lib", "lib" + "lib-abc" + "." + "rlib").Some?
  {
    hide FileStem, Normalize;
    var stem := "lib" + "lib-abc";
    StemOfArtifact(stem, "rlib");
    assert stem == "liblib-" + "abc" && "lib" + "lib" + "-" == "liblib-";
    assert !("lib-" <= stem) by { assert stem[3] == 'l'; }
    assert StripPrefix(stem, "liblib-") == Some("abc");
    assert ("-" + "abc")[1..] == "abc" && ValidHash("abc");
  }

  // ---------------------------------------------------------------------------
  // Injectivity
  // ---------------------------------------------------------------------------

  /** Splitting at the first dash recovers both parts. */
  lemma FirstDashSplits(a: string, x: string, b: string, y: string)
    requires NoDash(a) && NoDash(b) && a + x == b + y
    requires (x == "" || x[0] == '-') && (y == "" || y[0] == '-')
    ensures a == b && x == y
  {
    var s := a + x;
    assert forall i :: 0 <= i < |a| ==> s[i] != '-';
    assert forall i :: 0 <= i < |b| ==> s[i] != '-' by { assert forall i :: 0 <= i < |b| ==> (b + y)[i] == b[i]; }
    assert x != "" ==> s[|a|] == '-';
    assert y != "" ==> s[|b|] == '-' by { assert y != "" ==> (b + y)[|b|] == y[0]; }
    assert |a| == |b|;
    assert a == s[..|a|] && b == s[..|b|] && x == s[|a|..] && y == s[|b|..];
  }

  lemma TrimSame(p: string, a: string, b: string, s: string)
    requires p + a + s == p + b + s
    ensures a == b
  {
    assert a == (p + a + s)[|p|..|p| + |a|] && b == (p + b + s)[|p|..|p| + |b|];
  }

  /** A stamp certifies one crate name and one artifact hash. */
  lemma StampsAreInjective(c: string, x: string, d: string, y: string)
    requires InstrumentationStampName(c, x).Some? && InstrumentationStampName(c, x) == InstrumentationStampName(d, y)
    ensures Normalize(c) == Normalize(d) && x == y
  {
    hide Normalize, ValidHash;
    var a := Normalize(c) + x;
    var b := Normalize(d) + y;
    assert InstrumentationStampName(c, x).value == PREFIX + a + SUFFIX;
    assert InstrumentationStampName(d, y).value == PREFIX + b + SUFFIX;
    TrimSame(PREFIX, a, b, SUFFIX);
    FirstDashSplits(Normalize(c), x, Normalize(d), y);
  }

  /** `UnitId::dir_name`. */
  function DirName(crateName: string, metadata: Option<string>): string {
    if metadata.Some? then crateName + "-" + metadata.value else crateName
  }

  /** Units with rustc crate names, which have no dash, get different mirror directories. */
  lemma MirrorsAreDistinct(c: string, m: Option<string>, d: string, n: Option<string>)
    requires NoDash(c) && NoDash(d) && DirName(c, m) == DirName(d, n)
    ensures c == d && m == n
  {
    var x := if m.Some? then "-" + m.value else "";
    var y := if n.Some? then "-" + n.value else "";
    assert DirName(c, m) == c + x && DirName(d, n) == d + y;
    FirstDashSplits(c, x, d, y);
    assert m.Some? ==> x[1..] == m.value;
    assert n.Some? ==> y[1..] == n.value;
  }

  // ---------------------------------------------------------------------------
  // Removal
  // ---------------------------------------------------------------------------

  /** Invalidating a package removes marker files by name prefix. */
  predicate Removed(pkg: string, file: string) {
    PREFIX + Normalize(pkg) <= file || file == ".instrumented_" + Normalize(pkg)
  }

  /** What is swept: every name that starts like a stamp of the package, and the marker of that name alone. */
  lemma RemovedMeans(pkg: string, file: string)
    ensures Removed(pkg, file) <==>
              || file == ".instrumented_" + Normalize(pkg)
              || exists rest :: file == ".cargo-instrument-transformed-" + Normalize(pkg) + rest
  {
    hide Normalize;
    var start := ".cargo-instrument-transformed-" + Normalize(pkg);
    if start <= file { assert file == start + file[|start|..]; }
  }

  /**
    Stamps carry the crate name, removal goes by the package name: it hits exactly the stamps of
    crates whose name extends the package's, which misses a library target that is named otherwise.
   */
  lemma RemovalIsByNamePrefix(pkg: string, c: string, x: string)
    requires InstrumentationStampName(c, x).Some? && NoDot(pkg)
    ensures Removed(pkg, InstrumentationStampName(c, x).value) <==> Normalize(pkg) <= Normalize(c)
  {
    hide Normalize, ValidHash;
    var n := Normalize(pkg);
    var k := Normalize(c);
    assert NoDot(n);
    var name := PREFIX + (k + x) + SUFFIX;
    assert name[1] == 'c' && (".instrumented_" + n)[1] == 'i';
    var rest := (k + x) + SUFFIX;
    assert name == PREFIX + rest;
    PrefixUnderPrefix(PREFIX, n, rest);
    if |n| <= |k| {
      assert rest[..|k|] == k;
      assert n <= rest <==> n <= k by { assert rest[..|n|] == k[..|n|]; }
    } else {
      assert rest[|k|] == '-' || rest[|k|] == '.';
    }
  }

  lemma PrefixUnderPrefix(p: string, a: string, b: string)
    ensures p + a <= p + b <==> a <= b
  {
    if p + a <= p + b { assert (p + a)[|p|..] == a && (p + b)[|p|..] == b; assert a == b[..|a|]; }
    if a <= b { assert b == a + b[|a|..]; assert p + b == (p + a) + b[|a|..]; }
  }
}
