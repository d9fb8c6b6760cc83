/**
  The spawn wrappers in the sorted edits nest: reading the edits left to right, every opening
  text is closed at the end of the argument it opened
  (cargo-instrument/src/transform.rs:349-404).
 */
module SpawnBrackets {
  import opened Basics
  import opened Bytes
  import opened Sorting
  import opened Splicer
  import opened Planner
  import opened GreedyScan
  import opened PlanSafety

  predicate Opens(e: Edit) { e.text == SPAWN_OPEN }

  predicate Closes(e: Edit) { e.text == SPAWN_CLOSE }

  predicate Bracket(e: Edit) { Opens(e) || Closes(e) }

  /** Two different brackets never share an offset. */
  predicate Separate(a: Edit, b: Edit) { Bracket(a) && Bracket(b) ==> a.start != b.start }

  function OpenOf(r: Range): Edit { Edit(r.start, r.start, SPAWN_OPEN) }

  function CloseOf(r: Range): Edit { Edit(r.end, r.end, SPAWN_CLOSE) }

  /**
    Match brackets with a stack of open offsets; None when a closing text has no partner or an
    opening text stays open. The pairs are listed in the order they close.
   */
  function Pairs(es: seq<Edit>, stack: seq<nat>): Option<seq<Range>> {
    if es == [] then if stack == [] then Some([]) else None
    else if Opens(es[0]) then Pairs(es[1..], stack + [es[0].start])
    else if Closes(es[0]) then
      if stack == [] then None
      else
        var rest := Pairs(es[1..], stack[..|stack| - 1]);
        if rest.None? then None else Some([Range(stack[|stack| - 1], es[0].start)] + rest.value)
    else Pairs(es[1..], stack)
  }

  // ---------------------------------------------------------------------------
  // The argument ranges
  // ---------------------------------------------------------------------------

  predicate Nested(a: Range, b: Range) { a.start < b.start && b.end < a.end }

  /** Nested or disjoint, with no shared endpoint. */
  predicate Laminar(a: Range, b: Range) {
    && a.start != b.start && a.end != b.end && a.start != b.end && a.end != b.start
    && (Nested(a, b) || Nested(b, a) || a.end < b.start || b.end < a.start)
  }

  /** The ranges that are wrapped. */
  function Wrapped(source: seq<byte>, spawns: seq<Range>): seq<Range> {
    if spawns == [] then []
    else
      Wrapped(source, spawns[..|spawns| - 1])
      + if SpawnOk(source, spawns[|spawns| - 1]) then [spawns[|spawns| - 1]] else []
  }

  /** Two wrapped ranges are the same or laminar. */
  ghost predicate Family(v: seq<Range>) { forall a, b :: a in v && b in v ==> a == b || Laminar(a, b) }

  ghost predicate Proper(v: seq<Range>) { forall r :: r in v ==> r.start < r.end }

  // ---------------------------------------------------------------------------
  // Matching, one edit at a time
  // ---------------------------------------------------------------------------

  ghost predicate InOrder(es: seq<Edit>) { forall i, j :: 0 <= i < j < |es| ==> es[i].start <= es[j].start }

  /** Every bracket still to come belongs to a range. */
  ghost predicate Justified(v: seq<Range>, es: seq<Edit>) {
    forall e :: e in es ==>
      && (Opens(e) ==> exists r :: r in v && e == OpenOf(r))
      && (Closes(e) ==> exists r :: r in v && e == CloseOf(r))
  }

  /** A range is pending, open or done, and the stack holds the starts of the open ones. */
  ghost predicate Accounted(v: seq<Range>, es: seq<Edit>, stack: seq<nat>) {
    && (forall r :: r in v && OpenOf(r) in es ==> CloseOf(r) in es)
    && (forall r :: r in v ==> (r.start in stack <==> CloseOf(r) in es && OpenOf(r) !in es))
    && (forall n :: n in stack ==> exists r :: r in v && r.start == n)
  }

  ghost predicate Ascending(stack: seq<nat>, es: seq<Edit>) {
    && (forall i, j :: 0 <= i < j < |stack| ==> stack[i] < stack[j])
    && (forall n, e :: n in stack && e in es && Bracket(e) ==> n < e.start)
  }

  ghost predicate Matching(v: seq<Range>, es: seq<Edit>, stack: seq<nat>) {
    && Proper(v) && Family(v) && InOrder(es) && Pairwise(Separate, es)
    && Justified(v, es) && Accounted(v, es, stack) && Ascending(stack, es)
  }

  lemma TailOf(es: seq<Edit>, e: Edit)
    requires es != [] && Pairwise(Separate, es)
    ensures e in es[1..] ==> e in es
    ensures e in es ==> e == es[0] || e in es[1..]
    ensures Bracket(es[0]) ==> es[0] !in es[1..]
  {
    forall j | 0 < j < |es| ensures Bracket(es[0]) ==> es[j] != es[0] { assert Separate(es[0], es[j]); }
  }

  lemma PlainStep(v: seq<Range>, es: seq<Edit>, stack: seq<nat>)
    requires Matching(v, es, stack) && es != [] && !Bracket(es[0])
    ensures Matching(v, es[1..], stack)
    ensures forall r :: r in v ==> (CloseOf(r) in es <==> CloseOf(r) in es[1..])
  {
    assert es == [es[0]] + es[1..];
    forall r ensures CloseOf(r) in es <==> CloseOf(r) in es[1..] { TailOf(es, CloseOf(r)); }
    forall r ensures OpenOf(r) in es <==> OpenOf(r) in es[1..] { TailOf(es, OpenOf(r)); }
  }

  /** The remaining edits keep their order and separation. */
  lemma TailKeeps(v: seq<Range>, es: seq<Edit>)
    requires es != [] && InOrder(es) && Pairwise(Separate, es) && Justified(v, es)
    ensures InOrder(es[1..]) && Pairwise(Separate, es[1..]) && Justified(v, es[1..])
    ensures forall e :: e in es[1..] ==>
              e.start >= es[0].start && (Bracket(e) && Bracket(es[0]) ==> e.start > es[0].start)
  {
    hide Opens, Closes, OpenOf, CloseOf;
    forall i | 0 <= i < |es[1..]| ensures Separate(es[0], es[1..][i]) { assert es[1..][i] == es[i + 1]; }
  }

  lemma OpenStep(v: seq<Range>, es: seq<Edit>, stack: seq<nat>)
    requires Matching(v, es, stack) && es != [] && Opens(es[0])
    ensures Matching(v, es[1..], stack + [es[0].start])
    ensures forall r :: r in v ==> (CloseOf(r) in es <==> CloseOf(r) in es[1..])
  {
    OpenAccounts(v, es, stack);
    OpenAscends(v, es, stack);
    TailKeeps(v, es);
  }

  lemma OpenAscends(v: seq<Range>, es: seq<Edit>, stack: seq<nat>)
    requires Matching(v, es, stack) && es != [] && Opens(es[0])
    ensures Ascending(stack + [es[0].start], es[1..])
  {
    hide Opens, Closes, Accounted, Justified, Separate, InOrder;
    TailKeeps(v, es);
    var x := es[0].start;
    assert es[0] in es && forall n :: n in stack ==> n < x;
    forall n, e | n in stack + [x] && e in es[1..] && Bracket(e) ensures n < e.start { assert e.start > x; }
    forall i | 0 <= i < |stack| ensures stack[i] < x { assert stack[i] in stack; }
  }

  lemma OpenAccounts(v: seq<Range>, es: seq<Edit>, stack: seq<nat>)
    requires Matching(v, es, stack) && es != [] && Opens(es[0])
    ensures Accounted(v, es[1..], stack + [es[0].start])
    ensures forall r :: r in v ==> (CloseOf(r) in es <==> CloseOf(r) in es[1..])
  {
    hide Separate, InOrder, Ascending, Accounted, Opens;
    assert es[0] in es;
    var r0 :| r0 in v && es[0] == OpenOf(r0);
    forall r | r in v
      ensures CloseOf(r) in es <==> CloseOf(r) in es[1..]
      ensures OpenOf(r) in es[1..] <==> OpenOf(r) in es && r != r0
    {
      TailOf(es, CloseOf(r));
      TailOf(es, OpenOf(r));
      assert es[0] !in es[1..];
    }
    AccountsForOpened(v, es, es[1..], stack, r0);
  }

  lemma AccountsForOpened(v: seq<Range>, es: seq<Edit>, later: seq<Edit>, stack: seq<nat>, r0: Range)
    requires Family(v) && Accounted(v, es, stack) && r0 in v && OpenOf(r0) in es
    requires forall r :: r in v ==> (CloseOf(r) in es <==> CloseOf(r) in later)
    requires forall r :: r in v ==> (OpenOf(r) in later <==> OpenOf(r) in es && r != r0)
    ensures Accounted(v, later, stack + [r0.start])
  {
    hide OpenOf, CloseOf;
    forall r | r in v ensures r.start == r0.start <==> r == r0 {}
    var grown := stack + [r0.start];
    assert forall n :: n in grown <==> n in stack || n == r0.start;
  }

  /** When a range closes, its start is on top of the stack. */
  lemma ClosedIsOnTop(v: seq<Range>, es: seq<Edit>, stack: seq<nat>, r0: Range)
    requires Matching(v, es, stack) && es != [] && r0 in v && es[0] == CloseOf(r0)
    ensures stack != [] && stack[|stack| - 1] == r0.start
  {
    hide Separate, Justified;
    assert OpenOf(r0) !in es;
    assert r0.start in stack;
    var i :| 0 <= i < |stack| && stack[i] == r0.start;
    var n := stack[|stack| - 1];
    assert n in stack && es[0] in es && Bracket(es[0]);
    var r :| r in v && r.start == n;
    assert r.start >= r0.start && r.start < r0.end;
    assert CloseOf(r) in es && r.end >= r0.end;
  }

  lemma CloseStep(v: seq<Range>, es: seq<Edit>, stack: seq<nat>, r0: Range)
    requires Matching(v, es, stack) && es != [] && r0 in v && es[0] == CloseOf(r0)
    requires stack != [] && stack[|stack| - 1] == r0.start
    ensures Matching(v, es[1..], stack[..|stack| - 1])
    ensures forall r :: r in v ==> (CloseOf(r) in es[1..] <==> CloseOf(r) in es && r != r0)
  {
    CloseAccounts(v, es, stack, r0);
    TailKeeps(v, es);
    assert Ascending(stack[..|stack| - 1], es[1..]);
  }

  lemma CloseAccounts(v: seq<Range>, es: seq<Edit>, stack: seq<nat>, r0: Range)
    requires Matching(v, es, stack) && es != [] && r0 in v && es[0] == CloseOf(r0)
    requires stack != [] && stack[|stack| - 1] == r0.start
    ensures Accounted(v, es[1..], stack[..|stack| - 1])
    ensures forall r :: r in v ==> (CloseOf(r) in es[1..] <==> CloseOf(r) in es && r != r0)
  {
    hide Separate, InOrder, Justified;
    forall r | r in v
      ensures CloseOf(r) in es[1..] <==> CloseOf(r) in es && r != r0
      ensures OpenOf(r) in es[1..] <==> OpenOf(r) in es
      ensures r.start == r0.start <==> r == r0
    {
      TailOf(es, CloseOf(r));
      TailOf(es, OpenOf(r));
    }
    var rest := stack[..|stack| - 1];
    forall n ensures n in rest <==> n in stack && n != r0.start {
      assert stack == rest + [r0.start];
    }
  }

  ghost predicate EndsAscend(pairs: seq<Range>) {
    forall i, j :: 0 <= i < j < |pairs| ==> pairs[i].end < pairs[j].end
  }

  /** The pairs found are the ranges still to close, each once. */
  ghost predicate Finds(v: seq<Range>, es: seq<Edit>, found: Option<seq<Range>>) {
    && found.Some?
    && (forall r :: r in found.value <==> r in v && CloseOf(r) in es)
    && EndsAscend(found.value)
  }

  lemma {:induction false} PairsAreRanges(v: seq<Range>, es: seq<Edit>, stack: seq<nat>)
    requires Matching(v, es, stack)
    ensures Finds(v, es, Pairs(es, stack))
    decreases |es|
  {
    hide Matching, Opens, Closes, Finds;
    if es == [] {
      NothingLeft(v, stack);
    } else if Opens(es[0]) {
      OpenStep(v, es, stack);
      PairsAreRanges(v, es[1..], stack + [es[0].start]);
      FindsSame(v, es, Pairs(es, stack));
    } else if Closes(es[0]) {
      var r0 := ClosedRange(v, es, stack);
      ClosedIsOnTop(v, es, stack, r0);
      CloseStep(v, es, stack, r0);
      PairsAreRanges(v, es[1..], stack[..|stack| - 1]);
      FindsOneMore(v, es, stack, r0);
    } else {
      PlainStep(v, es, stack);
      PairsAreRanges(v, es[1..], stack);
      FindsSame(v, es, Pairs(es, stack));
    }
  }

  lemma Occupied(stack: seq<nat>)
    ensures stack != [] ==> exists n :: n in stack
  {
    if stack != [] { assert stack[0] in stack; }
  }

  lemma NothingLeft(v: seq<Range>, stack: seq<nat>)
    requires Matching(v, [], stack)
    ensures Finds(v, [], Pairs([], stack))
  {
    Occupied(stack);
  }

  lemma ClosedRange(v: seq<Range>, es: seq<Edit>, stack: seq<nat>) returns (r0: Range)
    requires Matching(v, es, stack) && es != [] && Closes(es[0])
    ensures r0 in v && es[0] == CloseOf(r0)
  {
    assert es[0] in es;
    r0 :| r0 in v && es[0] == CloseOf(r0);
  }

  lemma FindsSame(v: seq<Range>, es: seq<Edit>, found: Option<seq<Range>>)
    requires es != [] && Finds(v, es[1..], found)
    requires forall r :: r in v ==> (CloseOf(r) in es <==> CloseOf(r) in es[1..])
    ensures Finds(v, es, found)
  {
  }

  lemma FindsOneMore(v: seq<Range>, es: seq<Edit>, stack: seq<nat>, r0: Range)
    requires Matching(v, es, stack) && es != [] && r0 in v && es[0] == CloseOf(r0)
    requires stack != [] && stack[|stack| - 1] == r0.start
    requires Finds(v, es[1..], Pairs(es[1..], stack[..|stack| - 1]))
    requires forall r :: r in v ==> (CloseOf(r) in es[1..] <==> CloseOf(r) in es && r != r0)
    ensures Finds(v, es, Pairs(es, stack))
  {
    hide Justified, Accounted, Ascending, Separate, InOrder;
    var rest := Pairs(es[1..], stack[..|stack| - 1]).value;
    assert Pairs(es, stack) == Some([r0] + rest);
    TailKeeps(v, es);
    forall r | r in rest ensures r.end > r0.end { assert CloseOf(r) in es[1..]; }
  }

  // ---------------------------------------------------------------------------
  // The edits of a plan
  // ---------------------------------------------------------------------------

  function WrapsOf(v: seq<Range>): seq<Edit> {
    if v == [] then [] else WrapsOf(v[..|v| - 1]) + [OpenOf(v[|v| - 1]), CloseOf(v[|v| - 1])]
  }

  lemma {:induction false} SpawnEditsWrap(source: seq<byte>, spawns: seq<Range>)
    ensures SpawnEdits(source, spawns) == WrapsOf(Wrapped(source, spawns))
    ensures Proper(Wrapped(source, spawns))
    decreases |spawns|
  {
    hide CharBoundary;
    if spawns != [] {
      var r := spawns[|spawns| - 1];
      var before := Wrapped(source, spawns[..|spawns| - 1]);
      SpawnEditsWrap(source, spawns[..|spawns| - 1]);
      assert SpawnOk(source, r) ==> (before + [r])[..|before|] == before;
      assert WrapsOf(before) + [] == WrapsOf(before) && before + [] == before;
      if SpawnOk(source, r) {
        assert Wrapped(source, spawns) == before + [r];
        assert WrapsOf(before + [r]) == WrapsOf(before) + [OpenOf(r), CloseOf(r)];
      }
    }
  }

  lemma {:induction false} WrapsBelong(v: seq<Range>)
    ensures forall e :: e in WrapsOf(v) <==> exists r :: r in v && (e == OpenOf(r) || e == CloseOf(r))
    decreases |v|
  {
    hide OpenOf, CloseOf;
    if v != [] {
      WrapsBelong(v[..|v| - 1]);
      assert v == v[..|v| - 1] + [v[|v| - 1]];
    }
  }

  lemma {:induction false} WrapsAreSeparate(v: seq<Range>)
    requires Pairwise(Laminar, v) && Proper(v)
    ensures Pairwise(Separate, WrapsOf(v))
    decreases |v|
  {
    if v != [] {
      var w := v[..|v| - 1];
      var r := v[|v| - 1];
      WrapsAreSeparate(w);
      WrapsBelong(w);
      forall e | e in WrapsOf(w) ensures e.start != r.start && e.start != r.end {
        var q :| q in w && (e == OpenOf(q) || e == CloseOf(q));
        var i :| 0 <= i < |w| && w[i] == q;
        assert Laminar(v[i], v[|v| - 1]);
      }
      assert r in v;
    }
  }

  /** The emitter never inserts a bare spawn wrapper of its own. */
  ghost predicate NoBrackets(em: Emitter) {
    forall c :: em.prefix(c) !in {SPAWN_OPEN, SPAWN_CLOSE} && em.suffix(c) !in {SPAWN_OPEN, SPAWN_CLOSE}
  }

  lemma {:induction false} BodyEditsAreNoBrackets(em: Emitter, cs: seq<Candidate>)
    requires NoBrackets(em)
    ensures forall e :: e in AllEditsOf(em, cs) ==> !Bracket(e)
    decreases |cs|
  {
    if cs != [] { BodyEditsAreNoBrackets(em, cs[..|cs| - 1]); }
  }

  lemma MixedIsSeparate(body: seq<Edit>, wraps: seq<Edit>)
    requires (forall e :: e in body ==> !Bracket(e)) && Pairwise(Separate, wraps)
    ensures Pairwise(Separate, body + wraps)
  {
    hide Bracket;
    var t := body + wraps;
    forall i, j | 0 <= i < j < |t| ensures Separate(t[i], t[j]) && Separate(t[j], t[i]) {
      if i < |body| {
        assert t[i] in body;
      } else {
        assert Separate(wraps[i - |body|], wraps[j - |body|]) && Separate(wraps[j - |body|], wraps[i - |body|]);
      }
    }
  }

  lemma PushedIsSeparate(source: seq<byte>, cs: seq<Candidate>, spawns: seq<Range>, em: Emitter)
    requires em.handlesSpawn && NoBrackets(em) && Pairwise(Laminar, Wrapped(source, spawns))
    ensures var pushed := Pushed(source, cs, spawns, em);
            && Pairwise(Separate, pushed)
            && forall e :: e in pushed && Bracket(e) <==> e in WrapsOf(Wrapped(source, spawns))
  {
    hide Scanned, SpawnEdits, Wrapped, AllEditsOf, NoBrackets, Laminar, Separate, Opens, Closes, AllHealthy;
    var v := Wrapped(source, spawns);
    SpawnEditsWrap(source, spawns);
    WrapsAreSeparate(v);
    AcceptedAreDisjoint(source, em, Sort(CandidateLe, cs));
    BodyEditsAreNoBrackets(em, Planned(source, em, cs).accepted);
    MixedIsSeparate(Planned(source, em, cs).edits, WrapsOf(v));
    WrapsAreBrackets(v);
  }

  lemma {:induction false} WrapsAreBrackets(v: seq<Range>)
    ensures forall e :: e in WrapsOf(v) ==> Bracket(e)
  {
    WrapsBelong(v);
  }

  lemma StartsMatching(v: seq<Range>, es: seq<Edit>)
    requires Family(v) && Proper(v) && InOrder(es) && Pairwise(Separate, es)
    requires forall e :: e in es && Bracket(e) <==> e in WrapsOf(v)
    ensures Matching(v, es, []) && forall r :: r in v ==> CloseOf(r) in es
  {
    hide Separate, InOrder;
    WrapsBelong(v);
    forall r | r in v ensures OpenOf(r) in es && CloseOf(r) in es {
      assert OpenOf(r) in WrapsOf(v) && CloseOf(r) in WrapsOf(v);
    }
    forall e | e in es
      ensures Opens(e) ==> exists r :: r in v && e == OpenOf(r)
      ensures Closes(e) ==> exists r :: r in v && e == CloseOf(r)
    {
      if Bracket(e) {
        assert e in WrapsOf(v);
        var r :| r in v && (e == OpenOf(r) || e == CloseOf(r));
      }
    }
  }

  /**
    Nested or disjoint spawn arguments with distinct endpoints: the wrappers in the sorted edits,
    body insertions included, form a balanced bracket sequence whose matching pairs are exactly
    the wrapped argument ranges, each once.
   */
  lemma SpawnArgumentsMatch(source: seq<byte>, cs: seq<Candidate>, spawns: seq<Range>, em: Emitter)
    requires em.handlesSpawn && NoBrackets(em) && Pairwise(Laminar, Wrapped(source, spawns))
    ensures var pairs := Pairs(Edits(source, cs, spawns, em), []);
            && pairs.Some?
            && (forall r :: r in pairs.value <==> r in Wrapped(source, spawns))
            && EndsAscend(pairs.value)
  {
    hide Pushed, Wrapped, Pairs, Laminar, Separate, NoBrackets, EditLe, Matching, CharBoundary, WrapsOf, Bracket,
         EndsAscend;
    var v := Wrapped(source, spawns);
    var es := Edits(source, cs, spawns, em);
    PushedIsSeparate(source, cs, spawns, em);
    EditOrder();
    SortKeepsPairwise(EditLe, Separate, Pushed(source, cs, spawns, em));
    SortHasSameElements(EditLe, Pushed(source, cs, spawns, em));
    EditsAreInsertions(source, cs, spawns, em);
    SpawnEditsWrap(source, spawns);
    StartsMatching(v, es);
    PairsAreRanges(v, es, []);
  }

  /** A range is wrapped by these two insertions, which run the argument in the context current there. */
  ghost predicate WrappedBy(es: seq<Edit>, r: Range) {
    && Edit(r.start, r.start, Ascii("opentelemetry::trace::FutureExt::with_context(")) in es
    && Edit(r.end, r.end, Ascii(", opentelemetry::Context::current())")) in es
  }

  lemma {:induction false} WrappedExactly(source: seq<byte>, spawns: seq<Range>)
    ensures forall r :: r in Wrapped(source, spawns) <==>
              && r in spawns && r.start < r.end <= |source|
              && CharBoundary(source, r.start) && CharBoundary(source, r.end)
    decreases |spawns|
  {
    hide CharBoundary;
    if spawns != [] {
      WrappedExactly(source, spawns[..|spawns| - 1]);
      assert spawns == spawns[..|spawns| - 1] + [spawns[|spawns| - 1]];
    }
  }

  /** Every wrapped argument is in the plan with its two insertions. */
  lemma WrappersAreInserted(source: seq<byte>, cs: seq<Candidate>, spawns: seq<Range>, em: Emitter)
    requires em.handlesSpawn
    ensures forall r :: r in Wrapped(source, spawns) ==> WrappedBy(Edits(source, cs, spawns, em), r)
  {
    hide Scanned, SpawnEdits, Wrapped, EditLe, Ascii;
    SpawnEditsWrap(source, spawns);
    WrapsBelong(Wrapped(source, spawns));
    EditOrder();
    SortHasSameElements(EditLe, Pushed(source, cs, spawns, em));
    forall r | r in Wrapped(source, spawns) ensures WrappedBy(Edits(source, cs, spawns, em), r) {
      assert OpenOf(r) in Pushed(source, cs, spawns, em) && CloseOf(r) in Pushed(source, cs, spawns, em);
    }
  }
}
