/**
  Planning and applying together: when the planner returns, every plan is a sorted list of
  insertions at character boundaries, so applying it to its own source cannot fail
  (cargo-instrument/src/transform.rs:114-127, 320-456, 475-490).
 */
module PlanSafety {
  import opened Basics
  import opened Bytes
  import opened Sorting
  import opened Splicer
  import opened Planner
  import opened GreedyScan

  ghost predicate IsInsertion(source: seq<byte>, e: Edit) {
    e.start == e.end <= |source| && CharBoundary(source, e.start)
  }

  ghost predicate AllInsertions(source: seq<byte>, es: seq<Edit>) { forall e :: e in es ==> IsInsertion(source, e) }

  lemma EditsOfInsert(source: seq<byte>, em: Emitter, c: Candidate)
    requires Healthy(source, em, c)
    ensures AllInsertions(source, EditsOf(em, c))
  {
    hide StartsWithAnchor;
  }

  lemma {:induction false} AllEditsOfInsert(source: seq<byte>, em: Emitter, cs: seq<Candidate>)
    requires AllHealthy(source, em, cs)
    ensures AllInsertions(source, AllEditsOf(em, cs))
    decreases |cs|
  {
    hide Healthy, EditsOf, IsInsertion;
    if cs != [] {
      AllEditsOfInsert(source, em, cs[..|cs| - 1]);
      EditsOfInsert(source, em, cs[|cs| - 1]);
    }
  }

  lemma {:induction false} SpawnEditsInsert(source: seq<byte>, spawns: seq<Range>)
    ensures AllInsertions(source, SpawnEdits(source, spawns))
    decreases |spawns|
  {
    if spawns != [] { SpawnEditsInsert(source, spawns[..|spawns| - 1]); }
  }

  lemma PushedInsert(source: seq<byte>, cs: seq<Candidate>, spawns: seq<Range>, em: Emitter)
    ensures AllInsertions(source, Pushed(source, cs, spawns, em))
  {
    hide Scanned, SpawnEdits, IsInsertion, AllEditsOf, AllHealthy;
    AcceptedAreDisjoint(source, em, Sort(CandidateLe, cs));
    AllEditsOfInsert(source, em, Planned(source, em, cs).accepted);
    SpawnEditsInsert(source, spawns);
  }

  lemma EditsAreInsertions(source: seq<byte>, cs: seq<Candidate>, spawns: seq<Range>, em: Emitter)
    ensures Insertions(source, Edits(source, cs, spawns, em))
  {
    hide Pushed, CharBoundary;
    PushedInsert(source, cs, spawns, em);
    EditOrder();
    SortSorts(EditLe, Pushed(source, cs, spawns, em));
    SortHasSameElements(EditLe, Pushed(source, cs, spawns, em));
    var es := Edits(source, cs, spawns, em);
    forall i | 0 <= i < |es| ensures IsInsertion(source, es[i]) { assert es[i] in es; }
  }

  ghost function Output(source: seq<byte>, cs: seq<Candidate>, spawns: seq<Range>, em: Emitter): seq<byte> {
    Spliced(source, Edits(source, cs, spawns, em), 0)
  }

  /** The final window check never fires, and `apply` succeeds. */
  lemma PlanningNeverFails(source: seq<byte>, cs: seq<Candidate>, spawns: seq<Range>, em: Emitter)
    ensures Windows(Edits(source, cs, spawns, em))
    ensures Remaining(source, Edits(source, cs, spawns, em), 0) == Ok(Output(source, cs, spawns, em))
  {
    hide Edits, Remaining, CharBoundary;
    EditsAreInsertions(source, cs, spawns, em);
    InsertionsApply(source, Edits(source, cs, spawns, em), 0);
  }

  /** Source bytes move by exactly the inserted text, and deleting the insertions restores the source. */
  lemma PlansOnlyInsert(source: seq<byte>, cs: seq<Candidate>, spawns: seq<Range>, em: Emitter)
    ensures var es := Edits(source, cs, spawns, em);
            var out := Output(source, cs, spawns, em);
            && |out| == |source| + TotalText(es)
            && (forall p: nat :: p < |source| ==> At(out, p + Shift(es, p), source[p]))
            && Erase(out, es, 0) == source
  {
    hide Edits, Remaining, Spliced, CharBoundary, At, Erase, TotalText;
    var es := Edits(source, cs, spawns, em);
    EditsAreInsertions(source, cs, spawns, em);
    InsertionsApply(source, es, 0);
    EraseUndoesSplice(source, es, 0);
    assert source[0..] == source;
    forall p: nat | p < |source| ensures At(Spliced(source, es, 0), p + Shift(es, p), source[p]) {
      BytesLandShifted(source, es, 0, p);
    }
  }

  // ---------------------------------------------------------------------------
  // UTF-8
  // ---------------------------------------------------------------------------

  /** What is emitted for these candidates is well-formed. */
  ghost predicate EmitsUtf8(em: Emitter, cs: seq<Candidate>) {
    forall c :: c in cs ==> Utf8(em.prefix(c)) && Utf8(em.suffix(c))
  }

  lemma {:induction false} AllEditsOfUtf8(em: Emitter, cs: seq<Candidate>)
    requires EmitsUtf8(em, cs)
    ensures forall e :: e in AllEditsOf(em, cs) ==> Utf8(e.text)
    decreases |cs|
  {
    hide Utf8;
    if cs != [] {
      assert cs[|cs| - 1] in cs;
      AllEditsOfUtf8(em, cs[..|cs| - 1]);
    }
  }

  lemma {:induction false} SpawnEditsUtf8(source: seq<byte>, spawns: seq<Range>)
    ensures forall e :: e in SpawnEdits(source, spawns) ==> Utf8(e.text)
    decreases |spawns|
  {
    hide Utf8, CharBoundary;
    AsciiIsUtf8(SPAWN_OPEN);
    AsciiIsUtf8(SPAWN_CLOSE);
    if spawns != [] { SpawnEditsUtf8(source, spawns[..|spawns| - 1]); }
  }

  lemma EditsUtf8(source: seq<byte>, cs: seq<Candidate>, spawns: seq<Range>, em: Emitter)
    requires EmitsUtf8(em, cs)
    ensures Utf8Texts(Edits(source, cs, spawns, em))
  {
    hide Scanned, SpawnEdits, Utf8, AllEditsOf, AllHealthy;
    AcceptedAreDisjoint(source, em, Sort(CandidateLe, cs));
    AcceptedBelong(source, em, cs);
    AllEditsOfUtf8(em, Planned(source, em, cs).accepted);
    SpawnEditsUtf8(source, spawns);
    EditOrder();
    SortHasSameElements(EditLe, Pushed(source, cs, spawns, em));
    var es := Edits(source, cs, spawns, em);
    forall i | 0 <= i < |es| ensures Utf8(es[i].text) { assert es[i] in es; }
  }

  /** Valid UTF-8 stays valid. */
  lemma PlansKeepUtf8(source: seq<byte>, cs: seq<Candidate>, spawns: seq<Range>, em: Emitter)
    requires Utf8(source) && EmitsUtf8(em, cs)
    ensures Utf8(Output(source, cs, spawns, em))
  {
    hide Edits, Utf8, EmitsUtf8, Spliced;
    EditsAreInsertions(source, cs, spawns, em);
    EditsUtf8(source, cs, spawns, em);
    SpliceKeepsUtf8(source, Edits(source, cs, spawns, em), 0);
  }

  /** The string slice taken by the idempotence scan starts at a character boundary. */
  lemma {:induction false} AnchorScanNeverPanics(source: seq<byte>, em: Emitter, last: Option<Range>, c: Candidate)
    requires Utf8(source) && c.body.start < |source| && source[c.body.start] == OPEN_BRACE
    ensures CharBoundary(source, c.body.start + 1)
    ensures Decide(source, em, last, c) == Skip(BadBoundary(c.body.start + 1)) ==>
              c.body.end == c.body.start + 2
  {
    hide StartsWithAnchor;
    AsciiEndsCharacter(source, c.body.start);
  }

  // ---------------------------------------------------------------------------
  // Line endings and the whole transformation
  // ---------------------------------------------------------------------------

  const LF: seq<byte> := [0x0A]
  const CRLF: seq<byte> := [0x0D, 0x0A]
  const SAMPLE := 4096

  function CountLf(s: seq<byte>): nat {
    if s == [] then 0 else (if s[0] == 0x0A then 1 else 0) + CountLf(s[1..])
  }

  function CountCrlf(s: seq<byte>): nat {
    if s == [] then 0 else (if CRLF <= s then 1 else 0) + CountCrlf(s[1..])
  }

  /** `detect_line_ending`; slicing a `str` off a character boundary panics. */
  function LineEnding(source: seq<byte>): Result<seq<byte>> {
    if |source| > SAMPLE && !CharBoundary(source, SAMPLE) then Err(SlicePanic(0, SAMPLE))
    else
      var sample := if |source| > SAMPLE then source[..SAMPLE] else source;
      var crlf := CountCrlf(sample);
      var lf := if CountLf(sample) > crlf then CountLf(sample) - crlf else 0;
      Ok(if crlf > lf then CRLF else LF)
  }

  /** The part of a source the detection looks at. */
  ghost function Sample(source: seq<byte>): seq<byte> { if |source| <= 4096 then source else source[..4096] }

  predicate AfterCr(s: seq<byte>, i: int)
    requires 0 <= i < |s|
  {
    i > 0 && s[i - 1] == 0x0D
  }

  /** The positions of line feeds that follow a carriage return, and of those that do not. */
  ghost function WindowsEnds(s: seq<byte>): set<int> { set i | 0 <= i < |s| && s[i] == 0x0A && AfterCr(s, i) }

  ghost function UnixEnds(s: seq<byte>): set<int> { set i | 0 <= i < |s| && s[i] == 0x0A && !AfterCr(s, i) }

  /** Carriage return and line feed when most lines of the sample end that way, otherwise a line feed. */
  ghost function Majority(sample: seq<byte>): seq<byte> {
    if |WindowsEnds(sample)| > |UnixEnds(sample)| then [0x0D, 0x0A] else [0x0A]
  }

  lemma EndsOfLonger(s: seq<byte>)
    requires s != []
    ensures var n := |s| - 1;
            && WindowsEnds(s) == WindowsEnds(s[..n]) + (if s[n] == 0x0A && AfterCr(s, n) then {n} else {})
            && UnixEnds(s) == UnixEnds(s[..n]) + (if s[n] == 0x0A && !AfterCr(s, n) then {n} else {})
            && n !in WindowsEnds(s[..n]) && n !in UnixEnds(s[..n])
  {
  }

  lemma {:induction false} CountsAppend(s: seq<byte>, b: byte)
    ensures CountLf(s + [b]) == CountLf(s) + (if b == 0x0A then 1 else 0)
    ensures CountCrlf(s + [b]) == CountCrlf(s) + (if s != [] && s[|s| - 1] == 0x0D && b == 0x0A then 1 else 0)
  {
    var t := s + [b];
    if s == [] {
      assert t[1..] == [];
    } else {
      CountsAppend(s[1..], b);
      assert t[0] == s[0] && t[1..] == s[1..] + [b];
      assert CRLF <= t <==> t[0] == 0x0D && t[1] == 0x0A;
      assert |s| > 1 ==> t[1] == s[1];
      assert |s| > 1 ==> (CRLF <= s <==> s[0] == 0x0D && s[1] == 0x0A);
    }
  }

  /** The two counts of the detection are the sizes of these sets. */
  lemma {:induction false} CountsAreSizes(s: seq<byte>)
    ensures CountCrlf(s) == |WindowsEnds(s)| && CountLf(s) == |WindowsEnds(s)| + |UnixEnds(s)|
    decreases |s|
  {
    hide CountLf, CountCrlf, WindowsEnds, UnixEnds;
    if s == [] {
      NoEnds();
    } else {
      var n := |s| - 1;
      CountsAreSizes(s[..n]);
      EndsOfLonger(s);
      assert s == s[..n] + [s[n]];
      CountsAppend(s[..n], s[n]);
    }
  }

  lemma NoEnds()
    ensures WindowsEnds([]) == {} && UnixEnds([]) == {} && CountLf([]) == 0 && CountCrlf([]) == 0
  {
  }

  lemma LineEndingMeans(source: seq<byte>)
    ensures LineEnding(source).Ok? <==> |source| <= 4096 || !(0x80 <= source[4096] < 0xC0)
    ensures LineEnding(source).Ok? ==> LineEnding(source).value == Majority(Sample(source))
  {
    hide CountLf, CountCrlf, WindowsEnds, UnixEnds;
    CountsAreSizes(Sample(source));
  }

  /** Without a carriage return a file gets line feeds. */
  lemma UnixFilesGetLf(source: seq<byte>)
    requires 0x0D !in source
    ensures Majority(Sample(source)) == [0x0A]
  {
    assert WindowsEnds(Sample(source)) == {};
  }

  /** A file whose sampled lines all end with a carriage return, and there is one, gets both. */
  lemma WindowsFilesGetCrlf(source: seq<byte>)
    requires 0x0A in Sample(source)
    requires var s := Sample(source); forall i :: 0 <= i < |s| && s[i] == 0x0A ==> AfterCr(s, i)
    ensures Majority(Sample(source)) == [0x0D, 0x0A]
  {
    var s := Sample(source);
    var i :| 0 <= i < |s| && s[i] == 0x0A;
    assert i in WindowsEnds(s) && UnixEnds(s) == {};
  }

  /** The sample boundary the line-ending detection needs. */
  predicate Sampleable(source: seq<byte>) { |source| <= SAMPLE || !Continuation(source[SAMPLE]) }

  /**
    `transform_source_str_with_native_otel_and_spawns` and its siblings: fails exactly when byte
    4096 is in the middle of a character.
   */
  method Transform(source: seq<byte>, cs: seq<Candidate>, spawns: seq<Range>, emitter: seq<byte> -> Emitter)
    returns (r: Result<seq<byte>>)
    ensures r.Ok? <==> |source| <= 4096 || !(0x80 <= source[4096] < 0xC0)
    ensures r.Ok? ==> r.value == Output(source, cs, spawns, emitter(Majority(Sample(source))))
    ensures Majority(Sample(source)) in {LF, CRLF}
  {
    hide Edits, Remaining, Output, CountLf, CountCrlf, WindowsEnds, UnixEnds;
    LineEndingMeans(source);
    var nl := LineEnding(source);
    if nl.Err? { return Err(nl.error); }
    PlanningNeverFails(source, cs, spawns, emitter(nl.value));
    var plan := Build(source, cs, spawns, emitter(nl.value));
    r := Apply(source, plan.value.edits);
  }

  function Letters(n: nat): (s: seq<byte>)
    ensures |s| == n && forall i :: 0 <= i < n ==> s[i] == 0x61
  {
    seq(n, _ => 0x61)
  }

  /** A valid source on which the transformation panics: a two-byte character across offset 4096. */
  lemma LineEndingDetectionCanPanic()
    ensures var source := Letters(4095) + [0xC3, 0xA9]; Utf8(source) && !Sampleable(source)
  {
    AsciiIsUtf8(Letters(4095));
    TwoBytesAreUtf8();
    Utf8Concat(Letters(4095), [0xC3, 0xA9]);
  }

  lemma TwoBytesAreUtf8()
    ensures Utf8([0xC3, 0xA9])
  {
    assert CharLen([0xC3, 0xA9]) == 2 && Utf8([]);
  }
}
