/**
  Building a transformation plan (cargo-instrument/src/transform.rs:196-407): sort the
  candidates, accept or skip each one greedily, add the spawn wrappers, sort all edits and
  validate them. The line ending is already fixed inside the emitter.
 */
module Planner {
  import opened Basics
  import opened Bytes
  import opened Sorting
  import opened Splicer

  datatype Range = Range(start: nat, end: nat)

  /** The part of a candidate that planning and emission read. */
  datatype Candidate = Candidate(
    name: seq<byte>, body: Range, isAsync: bool, returnsResult: bool, returnsReferenceOrLifetime: bool)

  /** A code emission strategy; the suffix of a candidate may be empty. */
  datatype Emitter = Emitter(
    prefix: Candidate -> seq<byte>, suffix: Candidate -> seq<byte>, handlesAsync: bool, handlesSpawn: bool)

  datatype SkipReason =
    | RangeOutOfBounds(range: Range, sourceLen: nat)
    | BadBoundary(offset: nat)
    | MissingBrace(offset: nat, found: byte)
    | Overlapping(previous: Range, current: Range)
    | AlreadyInstrumented
    | AsyncDeferred

  datatype Skipped = Skipped(name: seq<byte>, range: Range, reason: SkipReason)

  datatype Plan = Plan(edits: seq<Edit>, skipped: seq<Skipped>)

  const OPEN_BRACE: byte := 0x7B
  const CLOSE_BRACE: byte := 0x7D

  /** The bytes of an ASCII literal. */
  function Ascii(s: string): (r: seq<byte>)
    ensures |r| == |s| && forall i :: 0 <= i < |r| ==> r[i] < 0x80
  {
    seq(|s|, i requires 0 <= i < |s| => if s[i] < 128 as char then s[i] as int as byte else 0x3F)
  }

  /** INSTRUMENT_ANCHOR_PREFIX and the two spawn wrappers. */
  const ANCHOR := Ascii("/* __cargo_instrument_anchor:")
  const COMMENT_END := Ascii("*/")
  const SPAWN_OPEN := Ascii("opentelemetry::trace::FutureExt::with_context(")
  const SPAWN_CLOSE := Ascii(", opentelemetry::Context::current())")

  // ---------------------------------------------------------------------------
  // Orders
  // ---------------------------------------------------------------------------

  /** `str::cmp`: lexicographic on bytes. */
  predicate NameLe(a: seq<byte>, b: seq<byte>) {
    a == [] || (b != [] && (a[0] < b[0] || (a[0] == b[0] && NameLe(a[1..], b[1..]))))
  }

  predicate CandidateLe(a: Candidate, b: Candidate) {
    || a.body.start < b.body.start
    || (a.body.start == b.body.start && a.body.end < b.body.end)
    || (a.body == b.body && NameLe(a.name, b.name))
  }

  predicate EditLe(a: Edit, b: Edit) { a.start < b.start || (a.start == b.start && a.end <= b.end) }

  lemma {:induction false} NameLeIsTotal(a: seq<byte>, b: seq<byte>)
    ensures NameLe(a, b) || NameLe(b, a)
    ensures NameLe(a, b) && NameLe(b, a) ==> a == b
  {
    if a != [] && b != [] {
      NameLeIsTotal(a[1..], b[1..]);
      assert a == [a[0]] + a[1..] && b == [b[0]] + b[1..];
    }
  }

  lemma {:induction false} NameLeIsTransitive(a: seq<byte>, b: seq<byte>, c: seq<byte>)
    requires NameLe(a, b) && NameLe(b, c)
    ensures NameLe(a, c)
  {
    if a != [] && a[0] == b[0] == c[0] { NameLeIsTransitive(a[1..], b[1..], c[1..]); }
  }

  lemma CandidateOrder()
    ensures TotalPreorder(CandidateLe)
  {
    hide NameLe;
    forall a, b ensures CandidateLe(a, b) || CandidateLe(b, a) { NameLeIsTotal(a.name, b.name); }
    forall a, b, c | CandidateLe(a, b) && CandidateLe(b, c) ensures CandidateLe(a, c) {
      if NameLe(a.name, b.name) && NameLe(b.name, c.name) { NameLeIsTransitive(a.name, b.name, c.name); }
    }
  }

  lemma EditOrder()
    ensures TotalPreorder(EditLe)
    ensures forall a, b :: EditLe(a, b) && EditLe(b, a) ==> a.start == b.start && a.end == b.end
  {
  }

  // ---------------------------------------------------------------------------
  // Idempotence detection
  // ---------------------------------------------------------------------------

  /** Byte length of the leading White_Space character, 0 if there is none. */
  function SpaceLen(s: seq<byte>): (n: nat)
    ensures n <= |s|
  {
    if |s| >= 1 && (0x09 <= s[0] <= 0x0D || s[0] == 0x20) then 1
    else if |s| >= 2 && s[0] == 0xC2 && (s[1] == 0x85 || s[1] == 0xA0) then 2
    else if |s| >= 3 && s[0] == 0xE1 && s[1] == 0x9A && s[2] == 0x80 then 3
    else if |s| >= 3 && s[0] == 0xE2 && s[1] == 0x80
            && (0x80 <= s[2] <= 0x8A || s[2] == 0xA8 || s[2] == 0xA9 || s[2] == 0xAF) then 3
    else if |s| >= 3 && s[0] == 0xE2 && s[1] == 0x81 && s[2] == 0x9F then 3
    else if |s| >= 3 && s[0] == 0xE3 && s[1] == 0x80 && s[2] == 0x80 then 3
    else 0
  }

  /** `str::trim_start`. */
  function TrimStart(s: seq<byte>): seq<byte>
    decreases |s|
  {
    if SpaceLen(s) == 0 then s else TrimStart(s[SpaceLen(s)..])
  }

  method FindText(s: seq<byte>, t: seq<byte>) returns (found: bool)
    ensures found <==> Contains(s, t)
  {
    var i := 0;
    while i <= |s|
      invariant 0 <= i <= |s| + 1
      invariant forall j :: 0 <= j < i && j <= |s| ==> !(t <= s[j..])
    {
      if t <= s[i..] { return true; }
      i := i + 1;
    }
    found := false;
  }

  /** `body_starts_with_anchor_sentinel`. */
  ghost predicate StartsWithAnchor(source: seq<byte>, bodyStart: nat) {
    bodyStart + 1 < |source| &&
    var trimmed := TrimStart(source[bodyStart + 1..]);
    StartsWith(trimmed, ANCHOR) && Contains(trimmed[|ANCHOR|..], COMMENT_END)
  }

  method BodyStartsWithAnchor(source: seq<byte>, bodyStart: nat) returns (r: bool)
    ensures r <==> StartsWithAnchor(source, bodyStart)
  {
    if bodyStart + 1 >= |source| { return false; }
    var trimmed := TrimStart(source[bodyStart + 1..]);
    if !StartsWith(trimmed, ANCHOR) { return false; }
    r := FindText(trimmed[|ANCHOR|..], COMMENT_END);
  }

  // ---------------------------------------------------------------------------
  // One candidate
  // ---------------------------------------------------------------------------

  datatype Decision = Accept(edits: seq<Edit>) | Skip(reason: SkipReason)

  /** The checks of one candidate, in order, after `last` was the last accepted body. */
  ghost function Decide(source: seq<byte>, em: Emitter, last: Option<Range>, c: Candidate): Decision {
    var r := c.body;
    if c.isAsync && !em.handlesAsync then Skip(AsyncDeferred)
    else if r.start >= r.end || r.end > |source| then Skip(RangeOutOfBounds(r, |source|))
    else if !CharBoundary(source, r.start) then Skip(BadBoundary(r.start))
    else if !CharBoundary(source, r.end) then Skip(BadBoundary(r.end))
    else if last.Some? && r.start < last.value.end then Skip(Overlapping(last.value, r))
    else if source[r.start] != OPEN_BRACE then Skip(MissingBrace(r.start, source[r.start]))
    else if StartsWithAnchor(source, r.start) then Skip(AlreadyInstrumented)
    else if !CharBoundary(source, r.start + 1) then Skip(BadBoundary(r.start + 1))
    else
      var prefix := Edit(r.start + 1, r.start + 1, em.prefix(c));
      var suffix := em.suffix(c);
      if suffix == [] then Accept([prefix])
      else if r.end - 1 <= r.start + 1 || !CharBoundary(source, r.end - 1) then Skip(BadBoundary(r.end - 1))
      else if source[r.end - 1] != CLOSE_BRACE then Skip(MissingBrace(r.end - 1, source[r.end - 1]))
      else Accept([prefix, Edit(r.end - 1, r.end - 1, suffix)])
  }

  method DecideOne(source: seq<byte>, em: Emitter, last: Option<Range>, c: Candidate) returns (d: Decision)
    ensures d == Decide(source, em, last, c)
  {
    var r := c.body;
    if c.isAsync && !em.handlesAsync { return Skip(AsyncDeferred); }
    if r.start >= r.end || r.end > |source| { return Skip(RangeOutOfBounds(r, |source|)); }
    if !CharBoundary(source, r.start) { return Skip(BadBoundary(r.start)); }
    if !CharBoundary(source, r.end) { return Skip(BadBoundary(r.end)); }
    if last.Some? && r.start < last.value.end { return Skip(Overlapping(last.value, r)); }
    if source[r.start] != OPEN_BRACE { return Skip(MissingBrace(r.start, source[r.start])); }
    var anchored := BodyStartsWithAnchor(source, r.start);
    if anchored { return Skip(AlreadyInstrumented); }
    var insertOffset := r.start + 1;
    if !CharBoundary(source, insertOffset) { return Skip(BadBoundary(insertOffset)); }
    var prefix := Edit(insertOffset, insertOffset, em.prefix(c));
    var suffix := em.suffix(c);
    if suffix == [] { return Accept([prefix]); }
    var suffixOffset := r.end - 1;
    if suffixOffset <= insertOffset || !CharBoundary(source, suffixOffset) { return Skip(BadBoundary(suffixOffset)); }
    if source[suffixOffset] != CLOSE_BRACE { return Skip(MissingBrace(suffixOffset, source[suffixOffset])); }
    d := Accept([prefix, Edit(suffixOffset, suffixOffset, suffix)]);
  }

  // ---------------------------------------------------------------------------
  // The greedy scan
  // ---------------------------------------------------------------------------

  /** State of the scan; `accepted` and `dropped` are the candidates behind `edits` and `skipped`. */
  datatype Scan = Scan(edits: seq<Edit>, skipped: seq<Skipped>, last: Option<Range>,
                       accepted: seq<Candidate>, dropped: seq<Candidate>)

  ghost function Scanned(source: seq<byte>, em: Emitter, cs: seq<Candidate>): Scan {
    if cs == [] then Scan([], [], None, [], [])
    else
      var before := Scanned(source, em, cs[..|cs| - 1]);
      var c := cs[|cs| - 1];
      match Decide(source, em, before.last, c)
      case Accept(edits) =>
        before.(edits := before.edits + edits, last := Some(c.body), accepted := before.accepted + [c])
      case Skip(reason) =>
        before.(skipped := before.skipped + [Skipped(c.name, c.body, reason)], dropped := before.dropped + [c])
  }

  predicate SpawnOk(source: seq<byte>, r: Range) {
    r.start < r.end <= |source| && CharBoundary(source, r.start) && CharBoundary(source, r.end)
  }

  function SpawnEdits(source: seq<byte>, spawns: seq<Range>): seq<Edit> {
    if spawns == [] then []
    else
      var r := spawns[|spawns| - 1];
      SpawnEdits(source, spawns[..|spawns| - 1])
      + if SpawnOk(source, r) then [Edit(r.start, r.start, SPAWN_OPEN), Edit(r.end, r.end, SPAWN_CLOSE)] else []
  }

  /** All edits in the order the builder pushes them. */
  ghost function Pushed(source: seq<byte>, cs: seq<Candidate>, spawns: seq<Range>, em: Emitter): seq<Edit> {
    Scanned(source, em, Sort(CandidateLe, cs)).edits + if em.handlesSpawn then SpawnEdits(source, spawns) else []
  }

  ghost function Edits(source: seq<byte>, cs: seq<Candidate>, spawns: seq<Range>, em: Emitter): seq<Edit> {
    Sort(EditLe, Pushed(source, cs, spawns, em))
  }

  ghost predicate Windows(edits: seq<Edit>) {
    forall i :: 0 <= i < |edits| - 1 ==> edits[i].end <= edits[i + 1].start
  }

  /** `build_with_emitter_and_spawns`. */
  method Build(source: seq<byte>, cs: seq<Candidate>, spawns: seq<Range>, em: Emitter) returns (r: Result<Plan>)
    ensures r.Ok? <==> Windows(Edits(source, cs, spawns, em))
    ensures r.Ok? ==> r.value == Plan(Edits(source, cs, spawns, em), Scanned(source, em, Sort(CandidateLe, cs)).skipped)
  {
    hide Decide, Sort, Insert, StartsWithAnchor, CharBoundary;
    var sorted := Sort(CandidateLe, cs);
    var edits := [];
    var skipped := [];
    var lastValidRange: Option<Range> := None;
    var i := 0;
    while i < |sorted|
      invariant 0 <= i <= |sorted|
      invariant var s := Scanned(source, em, sorted[..i]);
                edits == s.edits && skipped == s.skipped && lastValidRange == s.last
    {
      var c := sorted[i];
      assert sorted[..i + 1][..i] == sorted[..i];
      var d := DecideOne(source, em, lastValidRange, c);
      if d.Skip? {
        skipped := skipped + [Skipped(c.name, c.body, d.reason)];
      } else {
        edits := edits + d.edits;
        lastValidRange := Some(c.body);
      }
      i := i + 1;
    }
    assert sorted[..i] == sorted;
    ghost var bodyEdits := edits;
    if em.handlesSpawn {
      i := 0;
      while i < |spawns|
        invariant 0 <= i <= |spawns|
        invariant edits == bodyEdits + SpawnEdits(source, spawns[..i])
      {
        var s := spawns[i];
        assert spawns[..i + 1][..i] == spawns[..i];
        if SpawnOk(source, s) {
          edits := edits + [Edit(s.start, s.start, SPAWN_OPEN)];
          edits := edits + [Edit(s.end, s.end, SPAWN_CLOSE)];
        }
        i := i + 1;
      }
      assert spawns[..i] == spawns;
    }
    assert edits == Pushed(source, cs, spawns, em);
    edits := Sort(EditLe, edits);
    i := 0;
    while i + 1 < |edits|
      invariant 0 <= i && (if |edits| == 0 then i == 0 else i < |edits|)
      invariant forall j :: 0 <= j < i ==> edits[j].end <= edits[j + 1].start
    {
      if edits[i].end > edits[i + 1].start {
        return Err(OutOfBounds(edits[i].start, edits[i + 1].end, |source|));
      }
      i := i + 1;
    }
    r := Ok(Plan(edits, skipped));
  }
}
