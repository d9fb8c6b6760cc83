/**
  Planning again on the output: every body accepted by the first plan, moved to where the
  output has it, is recognized as already instrumented
  (cargo-instrument/src/transform.rs:297-305, 459-481, 936-939).
 */
module SecondPass {
  import opened Basics
  import opened Bytes
  import opened Sorting
  import opened Splicer
  import opened Planner
  import opened GreedyScan
  import opened PlanSafety

  // ---------------------------------------------------------------------------
  // Emitters that open with the anchor comment
  // ---------------------------------------------------------------------------

  predicate Blank(b: byte) { 0x09 <= b <= 0x0D || b == 0x20 }

  ghost predicate AllBlank(s: seq<byte>) { forall i :: 0 <= i < |s| ==> Blank(s[i]) }

  /** Whitespace, the anchor prefix, and the end of that comment somewhere after it. */
  ghost predicate OpensWithAnchor(s: seq<byte>) {
    exists w, rest :: s == w + ANCHOR + rest && AllBlank(w) && Contains(rest, COMMENT_END)
  }

  ghost predicate AnchorsEveryBody(em: Emitter) { forall c :: OpensWithAnchor(em.prefix(c)) }

  /** The shape every emitter's prefix has. */
  function AnchoredText(nl: seq<byte>, name: seq<byte>, code: seq<byte>): seq<byte> {
    nl + Ascii("    ") + ANCHOR + (Ascii(" \"") + name + Ascii("\" ") + COMMENT_END + code)
  }

  lemma ContainsMiddle(a: seq<byte>, t: seq<byte>, b: seq<byte>)
    ensures Contains(a + t + b, t)
  {
    assert (a + t + b)[|a|..] == t + b;
  }

  lemma AnchoredTextOpens(nl: seq<byte>, name: seq<byte>, code: seq<byte>)
    requires nl in {LF, CRLF}
    ensures OpensWithAnchor(AnchoredText(nl, name, code))
  {
    hide Ascii, Contains;
    var w := nl + Ascii("    ");
    BlankIndent(nl);
    var before := Ascii(" \"") + name + Ascii("\" ");
    var rest := before + COMMENT_END + code;
    ContainsMiddle(before, COMMENT_END, code);
    assert AnchoredText(nl, name, code) == w + ANCHOR + rest;
  }

  lemma BlankIndent(nl: seq<byte>)
    requires nl in {LF, CRLF}
    ensures AllBlank(nl + Ascii("    "))
  {
  }

  /** Every candidate's prefix is its anchor comment on a fresh line, then some code. */
  ghost predicate EmitsAnchoredText(em: Emitter, nl: seq<byte>) {
    forall c :: exists code :: em.prefix(c) == AnchoredText(nl, c.name, code)
  }

  lemma AnchoredTextAnchorsEveryBody(em: Emitter, nl: seq<byte>)
    requires nl in {LF, CRLF} && EmitsAnchoredText(em, nl)
    ensures AnchorsEveryBody(em)
  {
    hide AnchoredText, OpensWithAnchor;
    forall c ensures OpensWithAnchor(em.prefix(c)) {
      var code :| em.prefix(c) == AnchoredText(nl, c.name, code);
      AnchoredTextOpens(nl, c.name, code);
    }
  }

  // ---------------------------------------------------------------------------
  // Recognizing an anchored body
  // ---------------------------------------------------------------------------

  lemma {:induction false} TrimStartDropsBlanks(w: seq<byte>, s: seq<byte>)
    requires AllBlank(w)
    ensures TrimStart(w + s) == TrimStart(s)
    decreases |w|
  {
    if w == [] {
      assert w + s == s;
    } else {
      assert (w + s)[1..] == w[1..] + s;
      TrimStartDropsBlanks(w[1..], s);
    }
  }

  lemma TrimStartKeepsAnchor(s: seq<byte>)
    requires ANCHOR <= s
    ensures TrimStart(s) == s
  {
    assert s[0] == ANCHOR[0] == 0x2F;
  }

  lemma ContainsExtends(s: seq<byte>, t: seq<byte>, more: seq<byte>)
    requires Contains(s, t)
    ensures Contains(s + more, t)
  {
    var i :| 0 <= i <= |s| && t <= s[i..];
    assert (s + more)[i..] == s[i..] + more;
  }

  /** Whatever follows the prefix, a body that begins with it is recognized. */
  lemma AnchoredBodyIsRecognized(out: seq<byte>, start: nat, prefix: seq<byte>, more: seq<byte>)
    requires start + 1 <= |out| && out[start + 1..] == prefix + more && OpensWithAnchor(prefix)
    ensures StartsWithAnchor(out, start)
  {
    hide TrimStart, AllBlank, Contains, Ascii;
    var w, rest :| prefix == w + ANCHOR + rest && AllBlank(w) && Contains(rest, COMMENT_END);
    var tail := ANCHOR + (rest + more);
    assert prefix + more == w + tail;
    TrimStartDropsBlanks(w, tail);
    TrimStartKeepsAnchor(tail);
    assert tail[|ANCHOR|..] == rest + more;
    ContainsExtends(rest, COMMENT_END, more);
    assert |ANCHOR| > 0;
  }

  /** One Unicode White_Space character in UTF-8. */
  predicate Space(s: seq<byte>) {
    || (|s| == 1 && (s[0] == 0x20 || 0x09 <= s[0] <= 0x0D))                       // U+0020, U+0009 to U+000D
    || (|s| == 2 && s[0] == 0xC2 && (s[1] == 0x85 || s[1] == 0xA0))               // U+0085, U+00A0
    || (|s| == 3 && s[0] == 0xE1 && s[1] == 0x9A && s[2] == 0x80)                 // U+1680
    || (|s| == 3 && s[0] == 0xE2 && s[1] == 0x80 && s[2] <= 0x8A && s[2] >= 0x80) // U+2000 to U+200A
    || (|s| == 3 && s[0] == 0xE2 && s[1] == 0x80 && s[2] in {0xA8, 0xA9, 0xAF})   // U+2028, U+2029, U+202F
    || (|s| == 3 && s[0] == 0xE2 && s[1] == 0x81 && s[2] == 0x9F)                 // U+205F
    || (|s| == 3 && s[0] == 0xE3 && s[1] == 0x80 && s[2] == 0x80)                 // U+3000
  }

  /** White space only. */
  ghost predicate Spaces(s: seq<byte>)
    decreases |s|
  {
    s == [] || exists n :: 0 < n <= |s| && Space(s[..n]) && Spaces(s[n..])
  }

  lemma SpaceLenMeans(s: seq<byte>)
    ensures SpaceLen(s) > 0 ==> Space(s[..SpaceLen(s)])
    ensures forall n :: 0 < n <= |s| && Space(s[..n]) ==> SpaceLen(s) == n
  {
    forall n | 0 < n <= |s| && Space(s[..n]) ensures SpaceLen(s) == n {
      var c := s[..n];
      assert n <= 3 && c[0] == s[0] && (n > 1 ==> c[1] == s[1]) && (n > 2 ==> c[2] == s[2]);
    }
  }

  lemma MoreSpaces(c: seq<byte>, w: seq<byte>)
    requires Space(c) && Spaces(w)
    ensures Spaces(c + w)
  {
    assert (c + w)[..|c|] == c && (c + w)[|c|..] == w;
  }

  /** Trimming takes away the white space in front, all of it and nothing else. */
  lemma {:induction false} TrimStartMeans(s: seq<byte>) returns (w: seq<byte>)
    ensures s == w + TrimStart(s) && Spaces(w) && SpaceLen(TrimStart(s)) == 0
    decreases |s|
  {
    hide SpaceLen, Space, Spaces;
    var n := SpaceLen(s);
    SpaceLenMeans(s);
    if n == 0 {
      w := [];
      assert Spaces([]) by { NoSpaces(); }
    } else {
      var v := TrimStartMeans(s[n..]);
      w := s[..n] + v;
      MoreSpaces(s[..n], v);
      ConcatAssociates(s[..n], v, TrimStart(s));
      assert s == s[..n] + s[n..];
    }
  }

  lemma NoSpaces()
    ensures Spaces([])
  {
  }

  lemma {:induction false} SpacesAreTrimmed(w: seq<byte>, t: seq<byte>)
    requires Spaces(w) && SpaceLen(t) == 0
    ensures TrimStart(w + t) == t
    decreases |w|
  {
    hide SpaceLen, Space;
    if w == [] {
      assert w + t == t;
    } else {
      var n :| 0 < n <= |w| && Space(w[..n]) && Spaces(w[n..]);
      SpaceLenMeans(w + t);
      assert (w + t)[..n] == w[..n] && (w + t)[n..] == w[n..] + t;
      SpacesAreTrimmed(w[n..], t);
    }
  }

  /** White space, the anchor prefix and later the end of a comment. */
  ghost predicate Anchored(body: seq<byte>) {
    exists w, rest ::
      body == w + (Ascii("/* __cargo_instrument_anchor:") + rest) && Spaces(w) && Contains(rest, Ascii("*/"))
  }

  lemma RecognizedIsAnchored(source: seq<byte>, start: nat)
    requires StartsWithAnchor(source, start)
    ensures Anchored(source[start + 1..])
  {
    hide TrimStart, Spaces, Contains, Ascii;
    var body := source[start + 1..];
    var w := TrimStartMeans(body);
    var t := TrimStart(body);
    assert t == ANCHOR + t[|ANCHOR|..];
  }

  lemma AnchoredIsRecognized(source: seq<byte>, start: nat)
    requires start + 1 < |source| && Anchored(source[start + 1..])
    ensures StartsWithAnchor(source, start)
  {
    hide TrimStart, Spaces, Contains, Ascii;
    var w, rest :| source[start + 1..] == w + (ANCHOR + rest) && Spaces(w) && Contains(rest, COMMENT_END);
    AnchorIsNoSpace(rest);
    SpacesAreTrimmed(w, ANCHOR + rest);
    assert (ANCHOR + rest)[|ANCHOR|..] == rest;
  }

  /**
    A body is recognized as instrumented exactly when white space, the anchor prefix and later the end
    of a comment follow its brace. No other body is.
   */
  lemma RecognizedExactly(source: seq<byte>, start: nat)
    ensures StartsWithAnchor(source, start) <==> start + 1 < |source| && Anchored(source[start + 1..])
  {
    hide Anchored;
    if StartsWithAnchor(source, start) { RecognizedIsAnchored(source, start); }
    if start + 1 < |source| && Anchored(source[start + 1..]) { AnchoredIsRecognized(source, start); }
  }

  lemma AnchorIsNoSpace(rest: seq<byte>)
    ensures SpaceLen(Ascii("/* __cargo_instrument_anchor:") + rest) == 0
  {
    assert (Ascii("/* __cargo_instrument_anchor:") + rest)[0] == 0x2F;
  }

  // ---------------------------------------------------------------------------
  // The prefix is the first thing inserted at its offset
  // ---------------------------------------------------------------------------

  lemma {:induction false} EditsWithin(em: Emitter, cs: seq<Candidate>, source: seq<byte>)
    requires AllHealthy(source, em, cs) && DisjointInOrder(cs)
    ensures forall e :: e in AllEditsOf(em, cs) ==> cs != [] && e.start <= cs[|cs| - 1].body.end
    decreases |cs|
  {
    hide StartsWithAnchor, CharBoundary;
    if cs != [] {
      EditsWithin(em, cs[..|cs| - 1], source);
      assert Healthy(source, em, cs[|cs| - 1]);
    }
  }

  lemma {:induction false} NoTies(a: seq<Edit>, k: Edit)
    requires k.start == k.end && forall e :: e in a ==> e.start == e.end && e.start != k.start
    ensures Ties(EditLe, k, a) == []
  {
    if a != [] { NoTies(a[1..], k); }
  }

  lemma EditsOfTie(em: Emitter, c: Candidate, source: seq<byte>)
    requires Healthy(source, em, c)
    ensures var k := EditsOf(em, c)[0]; Ties(EditLe, k, EditsOf(em, c)) == [k]
  {
    hide StartsWithAnchor, CharBoundary;
    var k := EditsOf(em, c)[0];
    assert EditsOf(em, c) == [k] + EditsOf(em, c)[1..];
    NoTies(EditsOf(em, c)[1..], k);
    assert Ties(EditLe, k, [k] + EditsOf(em, c)[1..]) == [k] + Ties(EditLe, k, EditsOf(em, c)[1..]);
  }

  /** Among the body edits, a prefix is alone at its offset. */
  lemma {:induction false} PrefixIsAlone(em: Emitter, cs: seq<Candidate>, source: seq<byte>, i: nat)
    requires AllHealthy(source, em, cs) && DisjointInOrder(cs) && i < |cs|
    ensures var k := EditsOf(em, cs[i])[0]; Ties(EditLe, k, AllEditsOf(em, cs)) == [k]
    decreases |cs|
  {
    hide Healthy, EditsOf, EditLe, Ties;
    var n := |cs| - 1;
    var k := EditsOf(em, cs[i])[0];
    TiesConcat(EditLe, AllEditsOf(em, cs[..n]), EditsOf(em, cs[n]), k);
    if i < n {
      PrefixIsAlone(em, cs[..n], source, i);
      LaterEditsDoNotTie(em, cs[i], cs[n], source);
      assert [k] + [] == [k];
    } else {
      EarlierEditsDoNotTie(em, cs, source);
      assert Healthy(source, em, cs[n]);
      EditsOfTie(em, cs[n], source);
      assert [] + [k] == [k];
    }
  }

  lemma LaterEditsDoNotTie(em: Emitter, a: Candidate, b: Candidate, source: seq<byte>)
    requires Healthy(source, em, a) && Healthy(source, em, b) && a.body.end <= b.body.start
    ensures Ties(EditLe, EditsOf(em, a)[0], EditsOf(em, b)) == []
  {
    hide StartsWithAnchor, CharBoundary;
    NoTies(EditsOf(em, b), EditsOf(em, a)[0]);
  }

  lemma EarlierEditsDoNotTie(em: Emitter, cs: seq<Candidate>, source: seq<byte>)
    requires AllHealthy(source, em, cs) && DisjointInOrder(cs) && cs != []
    ensures var n := |cs| - 1; Ties(EditLe, EditsOf(em, cs[n])[0], AllEditsOf(em, cs[..n])) == []
  {
    hide StartsWithAnchor, CharBoundary, AllEditsOf, Ties;
    var n := |cs| - 1;
    EditsWithin(em, cs[..n], source);
    AllEditsOfInsert(source, em, cs[..n]);
    assert n > 0 ==> cs[..n][n - 1].body.end <= cs[n].body.start;
    NoTies(AllEditsOf(em, cs[..n]), EditsOf(em, cs[n])[0]);
  }

  /** How many of the sorted edits lie at or before p. */
  function CountUpTo(es: seq<Edit>, p: nat): (n: nat)
    ensures n <= |es|
    ensures forall i :: 0 <= i < n ==> es[i].start <= p
    ensures n < |es| ==> es[n].start > p
  {
    if es == [] || es[0].start > p then 0 else 1 + CountUpTo(es[1..], p)
  }

  /** The output from just inside an accepted body on begins with that candidate's prefix. */
  lemma PrefixComesFirst(source: seq<byte>, cs: seq<Candidate>, spawns: seq<Range>, em: Emitter, i: nat)
    requires i < |Planned(source, em, cs).accepted|
    ensures var c := Planned(source, em, cs).accepted[i];
            var es := Edits(source, cs, spawns, em);
            var n := CountUpTo(es, c.body.start);
            n < |es| && es[n] == Edit(c.body.start + 1, c.body.start + 1, em.prefix(c))
  {
    hide Scanned, SpawnEdits, AllEditsOf, Healthy, Ties, EditLe, IsInsertion;
    var accepted := Planned(source, em, cs).accepted;
    var c := accepted[i];
    var k := Edit(c.body.start + 1, c.body.start + 1, em.prefix(c));
    AcceptedAreDisjoint(source, em, Sort(CandidateLe, cs));
    PrefixIsAlone(em, accepted, source, i);
    var pushed := Pushed(source, cs, spawns, em);
    TiesConcat(EditLe, Planned(source, em, cs).edits, if em.handlesSpawn then SpawnEdits(source, spawns) else [], k);
    EditOrder();
    SortIsStable(EditLe, pushed, k);
    EditsAreInsertions(source, cs, spawns, em);
    FirstAtOffset(source, Edits(source, cs, spawns, em), k);
  }

  lemma {:induction false} TiesBelong(le: (Edit, Edit) -> bool, k: Edit, s: seq<Edit>)
    ensures forall e :: e in Ties(le, k, s) ==> e in s && le(e, k) && le(k, e)
  {
    if s != [] { TiesBelong(le, k, s[1..]); }
  }

  lemma {:induction false} FirstAtOffset(source: seq<byte>, es: seq<Edit>, k: Edit)
    requires Insertions(source, es) && Ties(EditLe, k, es) != [] && Ties(EditLe, k, es)[0] == k
    requires k.start == k.end && k.start > 0
    ensures var n := CountUpTo(es, k.start - 1); n < |es| && es[n] == k
  {
    hide Ties, CountUpTo, CharBoundary;
    TiesBelong(EditLe, k, es);
    assert k in es;
    var n := CountUpTo(es, k.start - 1);
    var j :| 0 <= j < |es| && es[j] == k;
    assert n <= j;
    FirstTie(EditLe, k, es, n);
  }

  // ---------------------------------------------------------------------------
  // Moving the accepted candidates
  // ---------------------------------------------------------------------------

  /** The body as the output has it: from the moved opening byte to just after the moved last byte. */
  function MovedBody(es: seq<Edit>, r: Range): Range
    requires r.end > 0
  {
    Range(r.start + Shift(es, r.start), r.end - 1 + Shift(es, r.end - 1) + 1)
  }

  ghost predicate IsMoved(es: seq<Edit>, c: Candidate, d: Candidate) {
    c.body.end > 0 && d == c.(body := MovedBody(es, c.body))
  }

  lemma {:induction false} CountIsSplit(source: seq<byte>, es: seq<Edit>, p: nat)
    requires Insertions(source, es)
    ensures var n := CountUpTo(es, p);
            && (forall i :: 0 <= i < n ==> es[i].start <= p)
            && (forall i :: n <= i < |es| ==> es[i].start > p)
            && Shift(es, p) == TotalText(es[..n])
  {
    hide CountUpTo, TotalText, Shift, CharBoundary;
    var n := CountUpTo(es, p);
    forall i | n <= i < |es| ensures es[i].start > p { assert es[n].start <= es[i].start; }
    ShiftOfPrefix(es, n, p);
  }

  /** From source offset p + 1 on, the output continues with the edits after p. */
  lemma {:induction false} OutputAfter(source: seq<byte>, es: seq<Edit>, p: nat)
    requires Insertions(source, es) && p < |source|
    ensures var n := CountUpTo(es, p);
            var m := p + 1 + Shift(es, p);
            && InsertionsFrom(source, es[n..], p + 1)
            && m <= |Spliced(source, es, 0)|
            && Spliced(source, es, 0)[m..] == Spliced(source, es[n..], p + 1)
  {
    hide CountUpTo, TotalText, Shift, Spliced, CharBoundary;
    CountIsSplit(source, es, p);
    OutputFrom(source, es, 0, CountUpTo(es, p), p + 1);
  }

  /** Text that starts with well-formed text cuts at a boundary. */
  lemma Utf8SuffixIsBoundary(s: seq<byte>, m: nat)
    requires m <= |s| && Utf8(s[m..])
    ensures CharBoundary(s, m)
  {
    if m < |s| {
      Utf8Unstep(s[m..]);
      assert s[m..][0] == s[m];
    }
  }

  lemma LaterTextsAreUtf8(es: seq<Edit>, n: nat)
    requires Utf8Texts(es) && n <= |es|
    ensures Utf8Texts(es[n..])
  {
  }

  lemma MovedEndIsBoundary(source: seq<byte>, es: seq<Edit>, end: nat)
    requires Utf8(source) && Insertions(source, es) && Utf8Texts(es)
    requires 0 < end <= |source| && CharBoundary(source, end)
    ensures var m := end + Shift(es, end - 1);
            m <= |Spliced(source, es, 0)| && CharBoundary(Spliced(source, es, 0), m)
  {
    hide CountUpTo, Spliced, Shift, Utf8, Utf8Texts, CharBoundary, Insertions, InsertionsFrom;
    OutputAfter(source, es, end - 1);
    var n := CountUpTo(es, end - 1);
    LaterTextsAreUtf8(es, n);
    SpliceKeepsUtf8(source, es[n..], end);
    Utf8SuffixIsBoundary(Spliced(source, es, 0), end + Shift(es, end - 1));
  }

  lemma {:induction false} SplicedStartsWithFirst(source: seq<byte>, es: seq<Edit>, at: nat)
    requires InsertionsFrom(source, es, at) && at <= |source| && es != [] && es[0].start == at
    ensures Spliced(source, es, at) == es[0].text + Spliced(source, es[1..], at)
  {
    hide Spliced, Remaining, TotalText, CharBoundary;
    InsertionsApply(source, es, at);
    assert source[at..at] == [];
    assert [] + es[0].text == es[0].text;
  }

  /** The moved body opens with a brace followed by the candidate's prefix. */
  lemma MovedBodyOpens(source: seq<byte>, cs: seq<Candidate>, spawns: seq<Range>, em: Emitter, i: nat)
    requires i < |Planned(source, em, cs).accepted| && AnchorsEveryBody(em)
    ensures var c := Planned(source, em, cs).accepted[i];
            var out := Output(source, cs, spawns, em);
            var start := c.body.start + Shift(Edits(source, cs, spawns, em), c.body.start);
            c.body.start < |source| && At(out, start, OPEN_BRACE) && StartsWithAnchor(out, start)
  {
    hide Scanned, Edits, Spliced, Shift, CountUpTo, StartsWithAnchor, At, CharBoundary, OpensWithAnchor, AllEditsOf,
         DisjointInOrder;
    var c := Planned(source, em, cs).accepted[i];
    var es := Edits(source, cs, spawns, em);
    var out := Output(source, cs, spawns, em);
    AcceptedAreDisjoint(source, em, Sort(CandidateLe, cs));
    assert Healthy(source, em, c);
    EditsAreInsertions(source, cs, spawns, em);
    BytesLandShifted(source, es, 0, c.body.start);
    OutputAfter(source, es, c.body.start);
    PrefixComesFirst(source, cs, spawns, em, i);
    var rest := es[CountUpTo(es, c.body.start)..];
    SplicedStartsWithFirst(source, rest, c.body.start + 1);
    var start := c.body.start + Shift(es, c.body.start);
    AnchoredBodyIsRecognized(out, start, em.prefix(c), Spliced(source, rest[1..], c.body.start + 1));
  }

  /** A candidate with a recognizable body is skipped, whichever emitter is at work. */
  lemma RecognizedIsSkipped(out: seq<byte>, em: Emitter, d: Candidate)
    requires d.body.start < d.body.end <= |out| && CharBoundary(out, d.body.end)
    requires At(out, d.body.start, OPEN_BRACE) && StartsWithAnchor(out, d.body.start)
    ensures Decide(out, em, None, d) == Skip(SkipOf(em, d))
  {
    hide StartsWithAnchor;
  }

  /** Why an instrumented candidate is skipped: an emitter without async support defers async ones first. */
  function SkipOf(em: Emitter, d: Candidate): SkipReason {
    if d.isAsync && !em.handlesAsync then AsyncDeferred else AlreadyInstrumented
  }

  lemma MovedIsSkipped(source: seq<byte>, cs: seq<Candidate>, spawns: seq<Range>, em: Emitter, i: nat, again: Emitter,
                       d: Candidate)
    requires Utf8(source) && EmitsUtf8(em, cs) && AnchorsEveryBody(em)
    requires i < |Planned(source, em, cs).accepted|
    requires IsMoved(Edits(source, cs, spawns, em), Planned(source, em, cs).accepted[i], d)
    ensures Decide(Output(source, cs, spawns, em), again, None, d) == Skip(SkipOf(again, d))
  {
    hide Scanned, Edits, Spliced, Shift, StartsWithAnchor, At, CharBoundary, Utf8, OpensWithAnchor, EmitsUtf8,
         AllEditsOf, DisjointInOrder;
    var c := Planned(source, em, cs).accepted[i];
    var es := Edits(source, cs, spawns, em);
    AcceptedAreDisjoint(source, em, Sort(CandidateLe, cs));
    assert Healthy(source, em, c);
    EditsAreInsertions(source, cs, spawns, em);
    EditsUtf8(source, cs, spawns, em);
    MovedEndIsBoundary(source, es, c.body.end);
    ShiftIsMonotone(es, c.body.start, c.body.end - 1);
    MovedBodyOpens(source, cs, spawns, em, i);
    RecognizedIsSkipped(Output(source, cs, spawns, em), again, d);
  }

  // ---------------------------------------------------------------------------
  // The second pass
  // ---------------------------------------------------------------------------

  ghost predicate AllRecognized(out: seq<byte>, em: Emitter, ds: seq<Candidate>) {
    forall d :: d in ds ==> Decide(out, em, None, d) == Skip(SkipOf(em, d))
  }

  ghost predicate AllReported(skipped: seq<Skipped>) {
    forall k :: 0 <= k < |skipped| ==> skipped[k].reason == AlreadyInstrumented
  }

  lemma {:induction false} NothingToDo(out: seq<byte>, em: Emitter, ds: seq<Candidate>)
    requires AllRecognized(out, em, ds)
    ensures var s := Scanned(out, em, ds); s.edits == [] && s.last == None && |s.skipped| == |ds|
    ensures em.handlesAsync ==> AllReported(Scanned(out, em, ds).skipped)
    decreases |ds|
  {
    hide Decide;
    if ds != [] { NothingToDo(out, em, ds[..|ds| - 1]); }
  }

  /** A list made of accepted candidates of the first pass, moved to where the output has them. */
  ghost predicate AllMoved(source: seq<byte>, cs: seq<Candidate>, spawns: seq<Range>, em: Emitter, ds: seq<Candidate>) {
    forall d :: d in ds ==>
      exists i :: 0 <= i < |Planned(source, em, cs).accepted|
                  && IsMoved(Edits(source, cs, spawns, em), Planned(source, em, cs).accepted[i], d)
  }

  /**
    A second pass over any such list, with any emitter and so with any line ending, skips every
    candidate, plans no edit, and applying its plan leaves the output as it is.
   */
  lemma SecondPassIsIdentity(source: seq<byte>, cs: seq<Candidate>, spawns: seq<Range>, em: Emitter, again: Emitter,
                             ds: seq<Candidate>)
    requires Utf8(source) && EmitsUtf8(em, cs) && AnchorsEveryBody(em) && AllMoved(source, cs, spawns, em, ds)
    ensures var out := Output(source, cs, spawns, em);
            && Edits(out, ds, [], again) == []
            && |Planned(out, again, ds).skipped| == |ds|
            && (again.handlesAsync ==> AllReported(Planned(out, again, ds).skipped))
            && Output(out, ds, [], again) == out
  {
    hide Scanned, Edits, Spliced, Decide, Utf8, EmitsUtf8, OpensWithAnchor, CandidateLe, IsMoved;
    var out := Output(source, cs, spawns, em);
    forall d | d in ds ensures Decide(out, again, None, d) == Skip(SkipOf(again, d)) {
      var i :| 0 <= i < |Planned(source, em, cs).accepted|
               && IsMoved(Edits(source, cs, spawns, em), Planned(source, em, cs).accepted[i], d);
      MovedIsSkipped(source, cs, spawns, em, i, again, d);
    }
    CandidateOrder();
    SortHasSameElements(CandidateLe, ds);
    NothingToDo(out, again, Sort(CandidateLe, ds));
    NoEditsNoChange(out, ds, again);
  }

  lemma NoEditsNoChange(out: seq<byte>, ds: seq<Candidate>, em: Emitter)
    requires Planned(out, em, ds).edits == []
    ensures Edits(out, ds, [], em) == [] && Output(out, ds, [], em) == out
  {
    hide Scanned;
    assert Pushed(out, ds, [], em) == [];
    assert Edits(out, ds, [], em) == [];
    assert out[0..] == out;
  }

  // ---------------------------------------------------------------------------
  // The whole transformation, twice
  // ---------------------------------------------------------------------------

  /** The emitter is as the laws need it, for either line ending. */
  ghost predicate LawfulFor(emitter: seq<byte> -> Emitter, cs: seq<Candidate>) {
    forall nl :: nl in {LF, CRLF} ==> AnchorsEveryBody(emitter(nl)) && EmitsUtf8(emitter(nl), cs)
  }

  /**
    Transforming the output again detects the line ending anew. It succeeds exactly when byte 4096 of
    the output starts a character, and then returns the output, whatever line ending it found.
   */
  method TransformTwice(source: seq<byte>, cs: seq<Candidate>, spawns: seq<Range>, emitter: seq<byte> -> Emitter,
                        ds: seq<Candidate>)
    returns (once: Result<seq<byte>>, twice: Result<seq<byte>>)
    requires Utf8(source) && LawfulFor(emitter, cs)
    requires Sampleable(source) ==> AllMoved(source, cs, spawns, emitter(Majority(Sample(source))), ds)
    ensures once.Ok? <==> Sampleable(source)
    ensures twice.Ok? <==> once.Ok? && Sampleable(once.value)
    ensures twice.Ok? ==> twice.value == once.value
  {
    hide Utf8, AllMoved, Output, AnchorsEveryBody, EmitsUtf8, Majority, Sample;
    once := Transform(source, cs, spawns, emitter);
    twice := once;
    if once.Ok? {
      twice := Transform(once.value, ds, [], emitter);
      if twice.Ok? {
        ghost var em, again := emitter(Majority(Sample(source))), emitter(Majority(Sample(once.value)));
        SecondPassIsIdentity(source, cs, spawns, em, again, ds);
      }
    }
  }

  /** A source with one empty body in front and a two-byte character n bytes after it. */
  function Shifting(n: nat): seq<byte> { [OPEN_BRACE, CLOSE_BRACE] + Letters(n) + [0xC3, 0xA9] }

  /**
    A second pass can panic where the first did not: whatever is inserted into the first body, up to
    4093 bytes, moves the character of a valid and sampleable source across offset 4096.
   */
  lemma SecondPassCanPanic(em: Emitter, c: Candidate)
    requires !c.isAsync && c.body == Range(0, 2) && em.suffix(c) == [] && 0 < |em.prefix(c)| <= 4093
    ensures var source := Shifting(4093 - |em.prefix(c)|);
            Utf8(source) && Sampleable(source) && !Sampleable(Output(source, [c], [], em))
  {
    hide Utf8, Output;
    var n := 4093 - |em.prefix(c)|;
    ShiftingIsUtf8(n);
    ShiftingOutput(em, c, n);
    var out := Output(Shifting(n), [c], [], em);
    assert |[OPEN_BRACE] + em.prefix(c) + ([CLOSE_BRACE] + Letters(n) + [0xC3])| == 4096;
    assert out == ([OPEN_BRACE] + em.prefix(c) + ([CLOSE_BRACE] + Letters(n) + [0xC3])) + [0xA9];
  }

  lemma ShiftingIsUtf8(n: nat)
    ensures Utf8(Shifting(n))
  {
    hide Utf8;
    AsciiIsUtf8([OPEN_BRACE, CLOSE_BRACE] + Letters(n));
    TwoBytesAreUtf8();
    Utf8Concat([OPEN_BRACE, CLOSE_BRACE] + Letters(n), [0xC3, 0xA9]);
  }

  /** The prefix goes between the braces. */
  lemma ShiftingOutput(em: Emitter, c: Candidate, n: nat)
    requires !c.isAsync && c.body == Range(0, 2) && em.suffix(c) == []
    ensures Output(Shifting(n), [c], [], em)
         == [OPEN_BRACE] + em.prefix(c) + ([CLOSE_BRACE] + Letters(n) + [0xC3, 0xA9])
  {
    hide TrimStart, Decide, Sort, Remaining;
    var source := Shifting(n);
    var e := Edit(1, 1, em.prefix(c));
    ShiftingAccepts(em, c, n);
    SortsSingle(CandidateLe, c);
    SortsSingle(EditLe, e);
    assert Scanned(source, em, []) == Scan([], [], None, [], []);
    assert [c][..0] == [];
    assert Pushed(source, [c], [], em) == [e];
    SplicedOnce(source, e);
    assert source[0..1] == [OPEN_BRACE] && source[1..] == [CLOSE_BRACE] + Letters(n) + [0xC3, 0xA9];
  }

  lemma ShiftingAccepts(em: Emitter, c: Candidate, n: nat)
    requires !c.isAsync && c.body == Range(0, 2) && em.suffix(c) == []
    ensures Decide(Shifting(n), em, None, c) == Accept([Edit(1, 1, em.prefix(c))])
  {
    hide Contains;
    var source := Shifting(n);
    assert source[0 + 1..][0] == CLOSE_BRACE;
    assert ANCHOR[0] == 0x2F;
  }

  lemma SortsSingle<T>(le: (T, T) -> bool, x: T)
    ensures Sort(le, [x]) == [x]
  {
    assert [x][1..] == [];
    assert Sort(le, []) == [];
  }

  lemma SplicedOnce(source: seq<byte>, e: Edit)
    requires e.start == e.end <= |source| && CharBoundary(source, e.start)
    ensures Spliced(source, [e], 0) == source[0..e.start] + e.text + source[e.start..]
  {
    hide CharBoundary;
    assert Remaining(source, [], e.end) == Ok(source[e.end..]);
    assert [e][0] == e && [e][1..] == [];
    assert Remaining(source, [e], 0) == Ok(source[0..e.start] + e.text + source[e.end..]);
  }
}
