/**
  What the visitor's report adds up to: every function is accounted for, candidate bodies never
  contain one another, and spawn arguments nest (cargo-instrument/src/ast.rs:661-684, 892-1163).
 */
module VisitorLaws {
  import opened Basics
  import opened Bytes
  import opened Sorting
  import opened Planner
  import opened Visitor
  import GreedyScan
  import SpawnBrackets

  // ---------------------------------------------------------------------------
  // Accounting
  // ---------------------------------------------------------------------------

  /** Functions in the signatures of skipped functions, which the visitor does not enter. */
  ghost function Unentered(ns: seq<Node>, inside: bool, imp: Option<EnclosingImpl>): nat
    decreases ns
  {
    if ns == [] then 0 else UnenteredIn(ns[0], inside, imp) + Unentered(ns[1..], inside, imp)
  }

  ghost function UnenteredIn(n: Node, inside: bool, imp: Option<EnclosingImpl>): nat
    decreases n
  {
    match n
    case Fn(_, _, _, _, _, signature, block) =>
      Unentered(block, true, imp)
      + if WhySkipped(n, inside, imp).Some? then Functions(signature) else Unentered(signature, true, imp)
    case Impl(_, own, parts) => Unentered(parts, inside, Some(own))
    case Mod(_, cfgTest, items) => if cfgTest then 0 else Unentered(items, inside, imp)
    case OutMod(_, _, _) => 0
    case Spawn(_, _, callee, inner) => Unentered(callee, inside, imp) + Unentered(inner, inside, imp)
    case Other(_, parts) => Unentered(parts, inside, imp)
  }

  /** Functions in the files of out-of-line test modules, which only the skip counter sees. */
  ghost function Elsewhere(ns: seq<Node>, inside: bool, imp: Option<EnclosingImpl>): nat
    decreases ns
  {
    if ns == [] then 0 else ElsewhereIn(ns[0], inside, imp) + Elsewhere(ns[1..], inside, imp)
  }

  ghost function ElsewhereIn(n: Node, inside: bool, imp: Option<EnclosingImpl>): nat
    decreases n
  {
    match n
    case Fn(_, _, _, _, _, signature, block) =>
      Elsewhere(block, true, imp) + if WhySkipped(n, inside, imp).Some? then 0 else Elsewhere(signature, true, imp)
    case Impl(_, own, parts) => Elsewhere(parts, inside, Some(own))
    case Mod(_, cfgTest, items) => if cfgTest then 0 else Elsewhere(items, inside, imp)
    case OutMod(_, cfgTest, functions) => if cfgTest then functions else 0
    case Spawn(_, _, callee, inner) => Elsewhere(callee, inside, imp) + Elsewhere(inner, inside, imp)
    case Other(_, parts) => Elsewhere(parts, inside, imp)
  }

  /** Candidates and skip counters together. */
  function Accounted(f: Findings): nat { |f.found| + |f.skipped| }

  lemma JoinAccounts(a: Findings, b: Findings)
    ensures Accounted(Join(a, b)) == Accounted(a) + Accounted(b)
  {
  }

  lemma TestsAccount(n: nat)
    ensures Accounted(Findings([], [], multiset{}[CfgTest := n])) == n
  {
  }

  /** The books balance on every file. */
  lemma {:induction false} BooksBalance(ns: seq<Node>, inside: bool, imp: Option<EnclosingImpl>)
    ensures Accounted(Find(ns, inside, imp)) + Unentered(ns, inside, imp) == Functions(ns) + Elsewhere(ns, inside, imp)
    decreases ns
  {
    hide Join, FindIn, UnenteredIn, ElsewhereIn, FunctionsIn;
    if ns != [] {
      BooksBalanceIn(ns[0], inside, imp);
      BooksBalance(ns[1..], inside, imp);
      JoinAccounts(FindIn(ns[0], inside, imp), Find(ns[1..], inside, imp));
    }
  }

  lemma {:induction false} BooksBalanceIn(n: Node, inside: bool, imp: Option<EnclosingImpl>)
    ensures Accounted(FindIn(n, inside, imp)) + UnenteredIn(n, inside, imp)
         == FunctionsIn(n) + ElsewhereIn(n, inside, imp)
    decreases n
  {
    hide Join, Find, Unentered, Elsewhere, Functions, WhySkipped, SpanName, Accounted;
    match n
    case Fn(_, _, _, _, _, _, _) => FunctionBalances(n, inside, imp);
    case Impl(_, own, parts) => BooksBalance(parts, inside, Some(own));
    case Mod(_, cfgTest, items) =>
      if cfgTest { TestsAccount(TestFunctions(n)); } else { BooksBalance(items, inside, imp); }
    case OutMod(_, cfgTest, functions) =>
      if cfgTest { TestsAccount(functions); } else { NothingAccounts(); }
    case Spawn(_, arg, callee, inner) =>
      BooksBalance(callee, inside, imp);
      BooksBalance(inner, inside, imp);
      SpawnAccounts(arg);
      JoinAccounts(Find(callee, inside, imp), Find(inner, inside, imp));
      JoinAccounts(Findings([], [arg], multiset{}), Join(Find(callee, inside, imp), Find(inner, inside, imp)));
    case Other(_, parts) => BooksBalance(parts, inside, imp);
  }

  lemma {:induction false} FunctionBalances(n: Node, inside: bool, imp: Option<EnclosingImpl>)
    requires n.Fn?
    ensures Accounted(FindIn(n, inside, imp)) + UnenteredIn(n, inside, imp)
         == FunctionsIn(n) + ElsewhereIn(n, inside, imp)
    decreases n, 0
  {
    hide Join, Find, Unentered, Elsewhere, Functions, WhySkipped, SpanName, Accounted;
    var reason := WhySkipped(n, inside, imp);
    var block := Find(n.block, true, imp);
    BooksBalance(n.block, true, imp);
    if reason.Some? {
      OneAccounts(reason.value, Found("", n.body));
      JoinAccounts(Findings([], [], multiset{reason.value}), block);
    } else {
      var one := Findings([Found(SpanName(n, imp), n.body)], [], multiset{});
      BooksBalance(n.signature, true, imp);
      OneAccounts(CfgTest, Found(SpanName(n, imp), n.body));
      JoinAccounts(Find(n.signature, true, imp), block);
      JoinAccounts(one, Join(Find(n.signature, true, imp), block));
    }
  }

  lemma NothingAccounts()
    ensures Accounted(NOTHING) == 0
  {
  }

  lemma OneAccounts(r: Reason, f: Found)
    ensures Accounted(Findings([], [], multiset{r})) == 1 && Accounted(Findings([f], [], multiset{})) == 1
  {
  }

  lemma SpawnAccounts(arg: Range)
    ensures Accounted(Findings([], [arg], multiset{})) == 0
  {
  }

  // ---------------------------------------------------------------------------
  // When the accounting is exact
  // ---------------------------------------------------------------------------

  /** Functions occur only as items or inside bodies, and test modules are inline. */
  ghost predicate Plain(ns: seq<Node>)
    decreases ns
  {
    ns == [] || (PlainIn(ns[0]) && Plain(ns[1..]))
  }

  ghost predicate PlainIn(n: Node)
    decreases n
  {
    match n
    case Fn(_, _, _, _, _, signature, block) => Functions(signature) == 0 && Plain(signature) && Plain(block)
    case Impl(_, _, parts) => Plain(parts)
    case Mod(_, cfgTest, items) => cfgTest || Plain(items)
    case OutMod(_, cfgTest, _) => !cfgTest
    case Spawn(_, _, callee, inner) => Plain(callee) && Plain(inner)
    case Other(_, parts) => Plain(parts)
  }

  lemma {:induction false} PlainHidesNothing(ns: seq<Node>, inside: bool, imp: Option<EnclosingImpl>)
    requires Plain(ns)
    ensures Unentered(ns, inside, imp) == 0 && Elsewhere(ns, inside, imp) == 0
    decreases ns
  {
    hide PlainIn, UnenteredIn, ElsewhereIn;
    if ns != [] {
      PlainHidesNothingIn(ns[0], inside, imp);
      PlainHidesNothing(ns[1..], inside, imp);
    }
  }

  lemma {:induction false} PlainHidesNothingIn(n: Node, inside: bool, imp: Option<EnclosingImpl>)
    requires PlainIn(n)
    ensures UnenteredIn(n, inside, imp) == 0 && ElsewhereIn(n, inside, imp) == 0
    decreases n
  {
    hide Plain, Unentered, Elsewhere, Functions, WhySkipped;
    match n
    case Fn(_, _, _, _, _, signature, block) =>
      PlainHidesNothing(signature, true, imp);
      PlainHidesNothing(block, true, imp);
    case Impl(_, own, parts) => PlainHidesNothing(parts, inside, Some(own));
    case Mod(_, cfgTest, items) => if !cfgTest { PlainHidesNothing(items, inside, imp); }
    case OutMod(_, _, _) =>
    case Spawn(_, _, callee, inner) =>
      PlainHidesNothing(callee, inside, imp);
      PlainHidesNothing(inner, inside, imp);
    case Other(_, parts) => PlainHidesNothing(parts, inside, imp);
  }

  /** Candidates plus skip counters equal the independent count, each function counted once. */
  lemma EveryFunctionOnce(file: seq<Node>)
    requires Plain(file)
    ensures Accounted(Find(file, false, None)) == Functions(file)
  {
    hide Plain, Find, Unentered, Elsewhere, Functions, Accounted;
    BooksBalance(file, false, None);
    PlainHidesNothing(file, false, None);
  }

  /** A function in the signature of a skipped function is counted by the counter alone. */
  lemma SignaturesAreMissed()
    ensures exists file :: Accounted(Find(file, false, None)) < Functions(file)
  {
    var plain := Flags(false, false, false, false, false, false, false);
    var hidden := Fn(Range(2, 5), false, "g", plain, Range(3, 5), [], []);
    var outer := Fn(Range(0, 9), false, "f", plain.(isConst := true), Range(6, 9), [hidden], []);
    assert FunctionsIn(hidden) == 1 && Functions([hidden]) == 1;
    assert FindIn(outer, false, None) == Join(Findings([], [], multiset{ConstFn}), NOTHING);
    OnlyItem(outer);
  }

  lemma OnlyItem(n: Node)
    ensures Accounted(Find([n], false, None)) == Accounted(FindIn(n, false, None)) && Functions([n]) == FunctionsIn(n)
  {
    hide FindIn, FunctionsIn;
    JoinAccounts(FindIn(n, false, None), Find([], false, None));
  }

  // ---------------------------------------------------------------------------
  // Spans
  // ---------------------------------------------------------------------------

  predicate Within(a: Range, lo: nat, hi: nat) { lo <= a.start <= a.end <= hi }

  predicate ApartRanges(a: Range, b: Range) { a.end <= b.start || b.end <= a.start }

  /** Siblings have disjoint spans inside [lo, hi), and so on inside each of them. */
  ghost predicate WellNested(ns: seq<Node>, lo: nat, hi: nat)
    decreases ns
  {
    ns == [] ||
    (Within(ns[0].span, lo, hi) && NestedIn(ns[0])
     && (forall m :: m in ns[1..] ==> ApartRanges(ns[0].span, m.span)) && WellNested(ns[1..], lo, hi))
  }

  ghost predicate NestedIn(n: Node)
    decreases n
  {
    match n
    case Fn(span, _, _, _, body, signature, block) =>
      && span.start <= body.start < body.end <= span.end
      && WellNested(signature, span.start, body.start) && WellNested(block, body.start, body.end)
    case Impl(span, _, parts) => WellNested(parts, span.start, span.end)
    case Mod(span, _, items) => WellNested(items, span.start, span.end)
    case OutMod(_, _, _) => true
    case Spawn(span, arg, callee, inner) =>
      && span.start < arg.start < arg.end < span.end
      && WellNested(callee, span.start, arg.start) && WellNested(inner, arg.start, arg.end)
    case Other(span, parts) => WellNested(parts, span.start, span.end)
  }

  /** All findings lie inside [lo, hi), spawn arguments strictly. */
  ghost predicate Confined(f: Findings, lo: nat, hi: nat) {
    && (forall c :: c in f.found ==> lo <= c.body.start < c.body.end <= hi)
    && (forall r :: r in f.spawns ==> lo < r.start < r.end < hi)
  }

  predicate ApartBodies(a: Found, b: Found) { ApartRanges(a.body, b.body) }

  /** No candidate body meets another, and spawn arguments are nested or disjoint without shared endpoints. */
  ghost predicate Tidy(f: Findings) { Pairwise(ApartBodies, f.found) && Pairwise(SpawnBrackets.Laminar, f.spawns) }

  lemma Wider(f: Findings, lo: nat, hi: nat, lo2: nat, hi2: nat)
    requires Confined(f, lo, hi) && lo2 <= lo && hi <= hi2
    ensures Confined(f, lo2, hi2)
  {
  }

  lemma JoinConfined(a: Findings, b: Findings, lo: nat, hi: nat)
    requires Confined(a, lo, hi) && Confined(b, lo, hi)
    ensures Confined(Join(a, b), lo, hi)
  {
  }

  /** Findings confined to disjoint spans stay tidy together. */
  lemma JoinTidy(a: Findings, b: Findings)
    requires Tidy(a) && Tidy(b)
    requires forall c, d :: c in a.found && d in b.found ==> ApartBodies(c, d) && ApartBodies(d, c)
    requires forall r, q ::
               r in a.spawns && q in b.spawns ==> SpawnBrackets.Laminar(r, q) && SpawnBrackets.Laminar(q, r)
    ensures Tidy(Join(a, b))
  {
    hide Pairwise, ApartBodies, SpawnBrackets.Laminar;
    PairwiseConcat(ApartBodies, a.found, b.found);
    PairwiseConcat(SpawnBrackets.Laminar, a.spawns, b.spawns);
  }

  lemma ApartSpansTidy(a: Findings, b: Findings, lo: nat, mid: nat, mid2: nat, hi: nat)
    requires Tidy(a) && Tidy(b) && mid <= mid2
    requires (Confined(a, lo, mid) && Confined(b, mid2, hi)) || (Confined(b, lo, mid) && Confined(a, mid2, hi))
    ensures Tidy(Join(a, b))
  {
    hide Tidy;
    JoinTidy(a, b);
  }

  lemma {:induction false} FindingsConfined(ns: seq<Node>, inside: bool, imp: Option<EnclosingImpl>, lo: nat, hi: nat)
    requires WellNested(ns, lo, hi)
    ensures Confined(Find(ns, inside, imp), lo, hi)
    decreases ns
  {
    hide Join, FindIn, NestedIn, Confined;
    if ns == [] {
      NothingConfined(lo, hi);
    } else {
      FindingsConfinedIn(ns[0], inside, imp);
      Wider(FindIn(ns[0], inside, imp), ns[0].span.start, ns[0].span.end, lo, hi);
      FindingsConfined(ns[1..], inside, imp, lo, hi);
      JoinConfined(FindIn(ns[0], inside, imp), Find(ns[1..], inside, imp), lo, hi);
    }
  }

  lemma NothingConfined(lo: nat, hi: nat)
    ensures Confined(NOTHING, lo, hi)
    ensures forall r :: Confined(Findings([], [], r), lo, hi)
  {
  }

  lemma {:induction false} FindingsConfinedIn(n: Node, inside: bool, imp: Option<EnclosingImpl>)
    requires NestedIn(n)
    ensures Confined(FindIn(n, inside, imp), n.span.start, n.span.end)
    decreases n
  {
    hide Join, Find, WellNested, Confined, WhySkipped, SpanName;
    var lo, hi := n.span.start, n.span.end;
    NothingConfined(lo, hi);
    match n
    case Fn(_, _, _, _, body, signature, block) =>
      FindingsConfined(block, true, imp, body.start, body.end);
      Wider(Find(block, true, imp), body.start, body.end, lo, hi);
      FindingsConfined(signature, true, imp, lo, body.start);
      Wider(Find(signature, true, imp), lo, body.start, lo, hi);
      FunctionConfined(n, inside, imp);
    case Impl(_, own, parts) => FindingsConfined(parts, inside, Some(own), lo, hi);
    case Mod(_, cfgTest, items) => if !cfgTest { FindingsConfined(items, inside, imp, lo, hi); }
    case OutMod(_, _, _) =>
    case Spawn(_, arg, callee, inner) =>
      FindingsConfined(callee, inside, imp, lo, arg.start);
      Wider(Find(callee, inside, imp), lo, arg.start, lo, hi);
      FindingsConfined(inner, inside, imp, arg.start, arg.end);
      Wider(Find(inner, inside, imp), arg.start, arg.end, lo, hi);
      JoinConfined(Find(callee, inside, imp), Find(inner, inside, imp), lo, hi);
      JoinConfined(Findings([], [arg], multiset{}), Join(Find(callee, inside, imp), Find(inner, inside, imp)), lo, hi);
    case Other(_, parts) => FindingsConfined(parts, inside, imp, lo, hi);
  }

  lemma FunctionConfined(n: Node, inside: bool, imp: Option<EnclosingImpl>)
    requires n.Fn? && n.span.start <= n.body.start < n.body.end <= n.span.end
    requires Confined(Find(n.block, true, imp), n.span.start, n.span.end)
    requires Confined(Find(n.signature, true, imp), n.span.start, n.span.end)
    ensures Confined(FindIn(n, inside, imp), n.span.start, n.span.end)
  {
    hide Join, Find, Confined, WhySkipped, SpanName;
    var lo, hi := n.span.start, n.span.end;
    var block := Find(n.block, true, imp);
    NothingConfined(lo, hi);
    var reason := WhySkipped(n, inside, imp);
    if reason.Some? {
      JoinConfined(Findings([], [], multiset{reason.value}), block, lo, hi);
    } else {
      var c := Found(SpanName(n, imp), n.body);
      JoinConfined(Find(n.signature, true, imp), block, lo, hi);
      JoinConfined(Findings([c], [], multiset{}), Join(Find(n.signature, true, imp), block), lo, hi);
    }
  }

  /** Every finding among siblings lies in the span of one of them. */
  ghost predicate InSomeSpan(f: Findings, ns: seq<Node>) {
    && (forall c :: c in f.found ==> exists m :: m in ns && m.span.start <= c.body.start < c.body.end <= m.span.end)
    && (forall r :: r in f.spawns ==> exists m :: m in ns && m.span.start < r.start < r.end < m.span.end)
  }

  lemma {:induction false} FindingsInSomeSpan(ns: seq<Node>, inside: bool, imp: Option<EnclosingImpl>, lo: nat, hi: nat)
    requires WellNested(ns, lo, hi)
    ensures InSomeSpan(Find(ns, inside, imp), ns)
    decreases ns
  {
    hide FindIn, NestedIn, ApartRanges;
    if ns != [] {
      FindingsConfinedIn(ns[0], inside, imp);
      FindingsInSomeSpan(ns[1..], inside, imp, lo, hi);
    }
  }

  lemma {:induction false} NothingFoundInside(ns: seq<Node>, imp: Option<EnclosingImpl>)
    ensures Find(ns, true, imp).found == []
    decreases ns
  {
    hide FindIn;
    if ns != [] {
      NothingFoundInsideIn(ns[0], imp);
      NothingFoundInside(ns[1..], imp);
    }
  }

  lemma {:induction false} NothingFoundInsideIn(n: Node, imp: Option<EnclosingImpl>)
    ensures FindIn(n, true, imp).found == []
    decreases n
  {
    hide Find, SpanName;
    match n
    case Fn(_, _, _, _, _, _, block) => NothingFoundInside(block, imp);
    case Impl(_, own, parts) => NothingFoundInside(parts, Some(own));
    case Mod(_, _, items) => NothingFoundInside(items, imp);
    case OutMod(_, _, _) =>
    case Spawn(_, _, callee, inner) =>
      NothingFoundInside(callee, imp);
      NothingFoundInside(inner, imp);
    case Other(_, parts) => NothingFoundInside(parts, imp);
  }

  lemma {:induction false} FindingsTidy(ns: seq<Node>, inside: bool, imp: Option<EnclosingImpl>, lo: nat, hi: nat)
    requires WellNested(ns, lo, hi)
    ensures Tidy(Find(ns, inside, imp))
    decreases ns
  {
    hide Join, FindIn, NestedIn, Tidy, Confined, InSomeSpan;
    if ns == [] {
      NothingTidy();
    } else {
      FindingsTidyIn(ns[0], inside, imp);
      FindingsTidy(ns[1..], inside, imp, lo, hi);
      FindingsConfinedIn(ns[0], inside, imp);
      FindingsInSomeSpan(ns[1..], inside, imp, lo, hi);
      SiblingsTidy(FindIn(ns[0], inside, imp), Find(ns[1..], inside, imp), ns);
    }
  }

  lemma NothingTidy()
    ensures Tidy(NOTHING)
    ensures forall r :: Tidy(Findings([], [], r))
    ensures forall c :: Tidy(Findings([c], [], multiset{}))
    ensures forall arg :: Tidy(Findings([], [arg], multiset{}))
  {
  }

  lemma SiblingsTidy(a: Findings, b: Findings, ns: seq<Node>)
    requires ns != [] && Tidy(a) && Tidy(b) && Confined(a, ns[0].span.start, ns[0].span.end) && InSomeSpan(b, ns[1..])
    requires forall m :: m in ns[1..] ==> ApartRanges(ns[0].span, m.span)
    ensures Tidy(Join(a, b))
  {
    hide Tidy;
    forall c, d | c in a.found && d in b.found ensures ApartBodies(c, d) && ApartBodies(d, c) {
      var m :| m in ns[1..] && m.span.start <= d.body.start < d.body.end <= m.span.end;
    }
    forall r, q | r in a.spawns && q in b.spawns ensures SpawnBrackets.Laminar(r, q) && SpawnBrackets.Laminar(q, r) {
      var m :| m in ns[1..] && m.span.start < q.start < q.end < m.span.end;
    }
    JoinTidy(a, b);
  }

  lemma {:induction false} FindingsTidyIn(n: Node, inside: bool, imp: Option<EnclosingImpl>)
    requires NestedIn(n)
    ensures Tidy(FindIn(n, inside, imp))
    decreases n
  {
    hide Join, Find, WellNested, Tidy, WhySkipped, SpanName;
    NothingTidy();
    var lo, hi := n.span.start, n.span.end;
    match n
    case Fn(_, _, _, _, body, signature, block) =>
      FindingsTidy(signature, true, imp, lo, body.start);
      FindingsTidy(block, true, imp, body.start, body.end);
      FunctionTidy(n, inside, imp);
    case Impl(_, own, parts) => FindingsTidy(parts, inside, Some(own), lo, hi);
    case Mod(_, cfgTest, items) => if !cfgTest { FindingsTidy(items, inside, imp, lo, hi); }
    case OutMod(_, _, _) =>
    case Spawn(_, arg, callee, inner) =>
      FindingsTidy(callee, inside, imp, lo, arg.start);
      FindingsTidy(inner, inside, imp, arg.start, arg.end);
      FindingsConfined(callee, inside, imp, lo, arg.start);
      FindingsConfined(inner, inside, imp, arg.start, arg.end);
      SpawnTidy(arg, Find(callee, inside, imp), Find(inner, inside, imp), lo);
    case Other(_, parts) => FindingsTidy(parts, inside, imp, lo, hi);
  }

  lemma SpawnTidy(arg: Range, callee: Findings, inner: Findings, lo: nat)
    requires lo < arg.start < arg.end && Tidy(callee) && Tidy(inner)
    requires Confined(callee, lo, arg.start) && Confined(inner, arg.start, arg.end)
    ensures Tidy(Join(Findings([], [arg], multiset{}), Join(callee, inner)))
  {
    hide Tidy;
    NothingTidy();
    ApartSpansTidy(callee, inner, lo, arg.start, arg.start, arg.end);
    JoinTidy(Findings([], [arg], multiset{}), Join(callee, inner));
  }

  lemma FunctionTidy(n: Node, inside: bool, imp: Option<EnclosingImpl>)
    requires n.Fn? && NestedIn(n) && Tidy(Find(n.block, true, imp)) && Tidy(Find(n.signature, true, imp))
    ensures Tidy(FindIn(n, inside, imp))
  {
    hide Find, WellNested, Tidy, WhySkipped, SpanName, Confined;
    NothingTidy();
    var block := Find(n.block, true, imp);
    var signature := Find(n.signature, true, imp);
    NothingFoundInside(n.block, imp);
    NothingFoundInside(n.signature, imp);
    var reason := WhySkipped(n, inside, imp);
    if reason.Some? {
      JoinTidy(Findings([], [], multiset{reason.value}), block);
    } else {
      FindingsConfined(n.signature, true, imp, n.span.start, n.body.start);
      FindingsConfined(n.block, true, imp, n.body.start, n.body.end);
      ApartSpansTidy(signature, block, n.span.start, n.body.start, n.body.start, n.body.end);
      JoinTidy(Findings([Found(SpanName(n, imp), n.body)], [], multiset{}), Join(signature, block));
    }
  }

  // ---------------------------------------------------------------------------
  // From the analyzer to the planner
  // ---------------------------------------------------------------------------

  /** The planner's candidates are the ones found, in order. */
  ghost predicate Carries(cs: seq<Candidate>, found: seq<Found>) {
    |cs| == |found| && forall i :: 0 <= i < |cs| ==> cs[i].body == found[i].body
  }

  /** The planner never reports an overlap on analyzer output. */
  lemma AnalyzedFilesNeverOverlap(file: seq<Node>, size: nat, source: seq<byte>, em: Emitter, cs: seq<Candidate>)
    requires WellNested(file, 0, size) && Carries(cs, Find(file, false, None).found)
    ensures forall k :: 0 <= k < |GreedyScan.Planned(source, em, cs).skipped| ==>
              !GreedyScan.Planned(source, em, cs).skipped[k].reason.Overlapping?
  {
    hide Find, WellNested, GreedyScan.Planned;
    FindingsTidy(file, false, None, 0, size);
    assert Pairwise(GreedyScan.Apart, cs);
    GreedyScan.DisjointBodiesNeverOverlap(source, em, cs);
  }

  lemma {:induction false} WrappedBelong(source: seq<byte>, spawns: seq<Range>)
    ensures forall r :: r in SpawnBrackets.Wrapped(source, spawns) ==> r in spawns
    decreases |spawns|
  {
    hide SpawnOk;
    if spawns != [] { WrappedBelong(source, spawns[..|spawns| - 1]); }
  }

  lemma {:induction false} WrappedIsPairwise(rel: (Range, Range) -> bool, source: seq<byte>, spawns: seq<Range>)
    requires Pairwise(rel, spawns)
    ensures Pairwise(rel, SpawnBrackets.Wrapped(source, spawns))
    decreases |spawns|
  {
    hide SpawnOk, Pairwise;
    if spawns == [] {
      assert Pairwise(rel, SpawnBrackets.Wrapped(source, spawns)) by { NoneIsPairwise(rel); }
    } else {
      var n := |spawns| - 1;
      PairwiseInit(rel, spawns);
      WrappedIsPairwise(rel, source, spawns[..n]);
      WrappedBelong(source, spawns[..n]);
      var before := SpawnBrackets.Wrapped(source, spawns[..n]);
      OneIsPairwise(rel, spawns[n]);
      forall r, last | r in before && last in [spawns[n]] ensures rel(r, last) && rel(last, r) {
        RelatedToLast(rel, spawns, r);
      }
      PairwiseConcat(rel, before, [spawns[n]]);
      assert before + [] == before;
    }
  }

  lemma NoneIsPairwise<T(!new)>(rel: (T, T) -> bool)
    ensures Pairwise(rel, [])
  {
  }

  lemma OneIsPairwise<T(!new)>(rel: (T, T) -> bool, x: T)
    ensures Pairwise(rel, [x])
  {
  }

  /**
    The spawn wrappers of an analyzed file are balanced around exactly its spawn arguments, all that lie
    in the source at character boundaries, and each runs its argument in the context current there.
   */
  lemma {:induction false} AnalyzedSpawnsMatch(file: seq<Node>, size: nat, source: seq<byte>, cs: seq<Candidate>,
                                               em: Emitter)
    requires WellNested(file, 0, size) && em.handlesSpawn && SpawnBrackets.NoBrackets(em)
    ensures var spawns := Find(file, false, None).spawns;
            var pairs := SpawnBrackets.Pairs(Edits(source, cs, spawns, em), []);
            && pairs.Some?
            && (forall r :: r in pairs.value <==>
                  && r in spawns && r.start < r.end <= |source|
                  && CharBoundary(source, r.start) && CharBoundary(source, r.end))
            && (forall r :: r in pairs.value ==> SpawnBrackets.WrappedBy(Edits(source, cs, spawns, em), r))
            && SpawnBrackets.EndsAscend(pairs.value)
  {
    hide Find, WellNested, Edits, SpawnBrackets.Pairs, SpawnBrackets.Wrapped, SpawnBrackets.NoBrackets,
         SpawnBrackets.EndsAscend, SpawnBrackets.WrappedBy, CharBoundary;
    FindingsTidy(file, false, None, 0, size);
    var spawns := Find(file, false, None).spawns;
    WrappedIsPairwise(SpawnBrackets.Laminar, source, spawns);
    WrappedBelong(source, spawns);
    SpawnBrackets.SpawnArgumentsMatch(source, cs, spawns, em);
    SpawnBrackets.WrappedExactly(source, spawns);
    SpawnBrackets.WrappersAreInserted(source, cs, spawns, em);
  }
}
