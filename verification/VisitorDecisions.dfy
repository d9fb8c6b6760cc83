/**
  Which functions become candidates and which skip counter counts the others
  (cargo-instrument/src/ast.rs:892-1163, instrument-semantics/src/lib.rs).
 */
module VisitorDecisions {
  import opened Basics
  import Planner
  import opened Visitor

  // ---------------------------------------------------------------------------
  // Functions outside of functions
  // ---------------------------------------------------------------------------

  /** A function together with the impl it is in. */
  datatype Placed = Placed(fn: Node, imp: Option<EnclosingImpl>)

  /** The functions that lie in no function and in no test module, in source order. */
  ghost function Outer(ns: seq<Node>, imp: Option<EnclosingImpl>): seq<Placed>
    decreases ns
  {
    if ns == [] then [] else OuterIn(ns[0], imp) + Outer(ns[1..], imp)
  }

  ghost function OuterIn(n: Node, imp: Option<EnclosingImpl>): seq<Placed>
    decreases n
  {
    match n
    case Fn(_, _, _, _, _, _, _) => [Placed(n, imp)]
    case Impl(_, own, parts) => Outer(parts, Some(own))
    case Mod(_, cfgTest, items) => if cfgTest then [] else Outer(items, imp)
    case OutMod(_, _, _) => []
    case Spawn(_, _, callee, inner) => Outer(callee, imp) + Outer(inner, imp)
    case Other(_, parts) => Outer(parts, imp)
  }

  lemma {:induction false} OuterAreFns(ns: seq<Node>, imp: Option<EnclosingImpl>)
    ensures forall p :: p in Outer(ns, imp) ==> p.fn.Fn?
    decreases ns
  {
    hide OuterIn;
    if ns != [] {
      OuterInAreFns(ns[0], imp);
      OuterAreFns(ns[1..], imp);
    }
  }

  lemma {:induction false} OuterInAreFns(n: Node, imp: Option<EnclosingImpl>)
    ensures forall p :: p in OuterIn(n, imp) ==> p.fn.Fn?
    decreases n
  {
    hide Outer;
    match n
    case Fn(_, _, _, _, _, _, _) =>
    case Impl(_, own, parts) => OuterAreFns(parts, Some(own));
    case Mod(_, cfgTest, items) => if !cfgTest { OuterAreFns(items, imp); }
    case OutMod(_, _, _) =>
    case Spawn(_, _, callee, inner) =>
      OuterAreFns(callee, imp);
      OuterAreFns(inner, imp);
    case Other(_, parts) => OuterAreFns(parts, imp);
  }

  // ---------------------------------------------------------------------------
  // What stands against a candidate
  // ---------------------------------------------------------------------------

  predicate IsMethodOf(p: Placed, trait_: string) {
    p.fn.Fn? && p.fn.method_ && p.imp.Some? && p.imp.value.traitIdent == Some(trait_)
  }

  /** Polling methods and conversions, which run too often or too deep to trace. */
  predicate Adapts(p: Placed) {
    || (IsMethodOf(p, "Future") && p.fn.ident == "poll")
    || (IsMethodOf(p, "Stream") && p.fn.ident == "poll_next")
    || (IsMethodOf(p, "Sink") && p.fn.ident in {"poll_ready", "start_send", "poll_flush", "poll_close"})
    || IsMethodOf(p, "Deref") || IsMethodOf(p, "DerefMut") || IsMethodOf(p, "AsRef") || IsMethodOf(p, "AsMut")
    || IsMethodOf(p, "Borrow") || IsMethodOf(p, "BorrowMut")
  }

  predicate Drops(p: Placed) { IsMethodOf(p, "Drop") && p.fn.ident == "drop" }

  predicate NoFlags(f: Flags) {
    !f.cfgTest && !f.isConst && !f.hasAbi && !f.inlined && !f.instrumented && !f.selfRecursive && !f.handwritten
  }

  predicate Eligible(p: Placed) { p.fn.Fn? && NoFlags(p.fn.flags) && !Adapts(p) && !Drops(p) }

  /** Which functions outside of functions a counter counts: the first reason that applies is the one counted. */
  predicate CountedAs(r: Reason, p: Placed) {
    p.fn.Fn? &&
    var f := p.fn.flags;
    match r
    case CfgTest => f.cfgTest
    case ConstFn => !f.cfgTest && f.isConst
    case ExternAbi => !f.cfgTest && !f.isConst && f.hasAbi
    case InlineAttribute => !f.cfgTest && !f.isConst && !f.hasAbi && f.inlined
    case SelfRecursive => !f.cfgTest && !f.isConst && !f.hasAbi && !f.inlined && !f.instrumented && f.selfRecursive
    case HandwrittenOtel =>
      !f.cfgTest && !f.isConst && !f.hasAbi && !f.inlined && (f.instrumented || (!f.selfRecursive && f.handwritten))
    case AdapterTrait => NoFlags(f) && Adapts(p)
    case DropImplementation => NoFlags(f) && Drops(p)
    case NestedFunction => false
  }

  /** Outside of functions, the decision is exactly this. */
  lemma DecisionMeans(n: Node, imp: Option<EnclosingImpl>)
    requires n.Fn?
    ensures WhySkipped(n, false, imp).None? <==> Eligible(Placed(n, imp))
    ensures forall r :: WhySkipped(n, false, imp) == Some(r) <==> CountedAs(r, Placed(n, imp))
  {
  }

  // ---------------------------------------------------------------------------
  // Functions inside of functions
  // ---------------------------------------------------------------------------

  /** Functions the visitor meets in syntax that lies in a function; it does not enter their signatures. */
  ghost function Inner(ns: seq<Node>): nat
    decreases ns
  {
    if ns == [] then 0 else InnerIn(ns[0]) + Inner(ns[1..])
  }

  ghost function InnerIn(n: Node): nat
    decreases n
  {
    match n
    case Fn(_, _, _, _, _, _, block) => 1 + Inner(block)
    case Impl(_, _, parts) => Inner(parts)
    case Mod(_, cfgTest, items) => if cfgTest then 0 else Inner(items)
    case OutMod(_, _, _) => 0
    case Spawn(_, _, callee, inner) => Inner(callee) + Inner(inner)
    case Other(_, parts) => Inner(parts)
  }

  /** Functions of test modules met in syntax that lies in a function. */
  ghost function InnerTests(ns: seq<Node>): nat
    decreases ns
  {
    if ns == [] then 0 else InnerTestsIn(ns[0]) + InnerTests(ns[1..])
  }

  ghost function InnerTestsIn(n: Node): nat
    decreases n
  {
    match n
    case Fn(_, _, _, _, _, _, block) => InnerTests(block)
    case Impl(_, _, parts) => InnerTests(parts)
    case Mod(_, cfgTest, items) => if cfgTest then Functions(items) else InnerTests(items)
    case OutMod(_, cfgTest, functions) => if cfgTest then functions else 0
    case Spawn(_, _, callee, inner) => InnerTests(callee) + InnerTests(inner)
    case Other(_, parts) => InnerTests(parts)
  }

  /** Functions of test modules that lie in no function. */
  ghost function OuterTests(ns: seq<Node>): nat
    decreases ns
  {
    if ns == [] then 0 else OuterTestsIn(ns[0]) + OuterTests(ns[1..])
  }

  ghost function OuterTestsIn(n: Node): nat
    decreases n
  {
    match n
    case Fn(_, _, _, _, _, _, _) => 0
    case Impl(_, _, parts) => OuterTests(parts)
    case Mod(_, cfgTest, items) => if cfgTest then Functions(items) else OuterTests(items)
    case OutMod(_, cfgTest, functions) => if cfgTest then functions else 0
    case Spawn(_, _, callee, inner) => OuterTests(callee) + OuterTests(inner)
    case Other(_, parts) => OuterTests(parts)
  }

  /** What lies in the function: its body, and for a candidate also its signature. */
  ghost function InsideOf(p: Placed): seq<Node>
    requires p.fn.Fn?
  {
    if Eligible(p) then p.fn.signature + p.fn.block else p.fn.block
  }

  lemma {:induction false} InnerConcat(a: seq<Node>, b: seq<Node>)
    ensures Inner(a + b) == Inner(a) + Inner(b) && InnerTests(a + b) == InnerTests(a) + InnerTests(b)
    decreases |a|
  {
    hide InnerIn, InnerTestsIn;
    if a == [] {
      assert a + b == b;
    } else {
      InnerConcat(a[1..], b);
      assert (a + b)[0] == a[0] && (a + b)[1..] == a[1..] + b;
    }
  }

  /** Syntax that lies in a function: nothing is found, and its functions are counted as nested. */
  ghost predicate InsideFindings(f: Findings, inner: nat, tests: nat) {
    f.found == [] && f.skipped[NestedFunction] == inner && f.skipped[CfgTest] == tests
    && forall r :: r != NestedFunction && r != CfgTest ==> f.skipped[r] == 0
  }

  lemma InsideJoins(f: Findings, g: Findings, m: nat, n: nat, s: nat, t: nat)
    requires InsideFindings(f, m, s) && InsideFindings(g, n, t)
    ensures InsideFindings(Join(f, g), m + n, s + t)
  {
  }

  lemma NothingInside(tests: nat, arg: Planner.Range)
    ensures InsideFindings(NOTHING, 0, 0) && InsideFindings(Findings([], [arg], multiset{}), 0, 0)
    ensures InsideFindings(Findings([], [], multiset{}[CfgTest := tests]), 0, tests)
    ensures InsideFindings(Findings([], [], multiset{NestedFunction}), 1, 0)
  {
  }

  lemma {:induction false} InsideMeans(ns: seq<Node>, imp: Option<EnclosingImpl>)
    ensures InsideFindings(Find(ns, true, imp), Inner(ns), InnerTests(ns))
    decreases ns
  {
    hide FindIn, InnerIn, InnerTestsIn, InsideFindings, Join;
    if ns == [] {
      NothingInside(0, Planner.Range(0, 0));
    } else {
      InsideMeansIn(ns[0], imp);
      InsideMeans(ns[1..], imp);
      InsideJoins(FindIn(ns[0], true, imp), Find(ns[1..], true, imp), InnerIn(ns[0]), Inner(ns[1..]),
                  InnerTestsIn(ns[0]), InnerTests(ns[1..]));
    }
  }

  lemma {:induction false} InsideMeansIn(n: Node, imp: Option<EnclosingImpl>)
    ensures InsideFindings(FindIn(n, true, imp), InnerIn(n), InnerTestsIn(n))
    decreases n
  {
    hide Find, Inner, InnerTests, SpanName, Functions, InsideFindings, Join;
    match n
    case Fn(_, _, _, _, _, _, block) =>
      InsideMeans(block, imp);
      NothingInside(0, n.body);
      InsideJoins(Findings([], [], multiset{NestedFunction}), Find(block, true, imp),
                  1, Inner(block), 0, InnerTests(block));
    case Impl(_, own, parts) => InsideMeans(parts, Some(own));
    case Mod(_, cfgTest, items) =>
      NothingInside(Functions(items), Planner.Range(0, 0));
      if !cfgTest { InsideMeans(items, imp); }
    case OutMod(_, _, functions) => NothingInside(functions, Planner.Range(0, 0));
    case Spawn(_, arg, callee, inner) =>
      var f, g := Find(callee, true, imp), Find(inner, true, imp);
      InsideMeans(callee, imp);
      InsideMeans(inner, imp);
      NothingInside(0, arg);
      InsideJoins(f, g, Inner(callee), Inner(inner), InnerTests(callee), InnerTests(inner));
      InsideJoins(Findings([], [arg], multiset{}), Join(f, g), 0, Inner(callee) + Inner(inner),
                  0, InnerTests(callee) + InnerTests(inner));
    case Other(_, parts) => InsideMeans(parts, imp);
  }

  // ---------------------------------------------------------------------------
  // What the visitor reports
  // ---------------------------------------------------------------------------

  /** The candidates among these functions, in order. */
  ghost function Reported(ps: seq<Placed>): seq<Found>
    requires forall p :: p in ps ==> p.fn.Fn?
  {
    if ps == [] then []
    else (if Eligible(ps[0]) then [Found(SpanName(ps[0].fn, ps[0].imp), ps[0].fn.body)] else []) + Reported(ps[1..])
  }

  ghost function Counted(r: Reason, ps: seq<Placed>): nat {
    if ps == [] then 0 else (if CountedAs(r, ps[0]) then 1 else 0) + Counted(r, ps[1..])
  }

  /** Functions nested in these. */
  ghost function Nested(ps: seq<Placed>): nat
    requires forall p :: p in ps ==> p.fn.Fn?
  {
    if ps == [] then 0 else Inner(InsideOf(ps[0])) + Nested(ps[1..])
  }

  /** Functions of the test modules in these. */
  ghost function NestedTests(ps: seq<Placed>): nat
    requires forall p :: p in ps ==> p.fn.Fn?
  {
    if ps == [] then 0 else InnerTests(InsideOf(ps[0])) + NestedTests(ps[1..])
  }

  lemma {:induction false} ReportConcat(a: seq<Placed>, b: seq<Placed>)
    requires forall p :: p in a + b ==> p.fn.Fn?
    ensures forall p :: p in a || p in b ==> p.fn.Fn?
    ensures Reported(a + b) == Reported(a) + Reported(b)
    ensures forall r :: Counted(r, a + b) == Counted(r, a) + Counted(r, b)
    ensures Nested(a + b) == Nested(a) + Nested(b) && NestedTests(a + b) == NestedTests(a) + NestedTests(b)
    decreases |a|
  {
    hide Inner, InnerTests, InsideOf, CountedAs, Eligible, SpanName;
    forall p | p in a || p in b ensures p.fn.Fn? { assert p in a + b; }
    if a == [] {
      assert a + b == b;
    } else {
      var rest := a[1..];
      assert (a + b)[0] == a[0] && (a + b)[1..] == rest + b;
      forall p | p in rest + b ensures p.fn.Fn? { assert p in a + b; }
      ReportConcat(rest, b);
      var first := if Eligible(a[0]) then [Found(SpanName(a[0].fn, a[0].imp), a[0].fn.body)] else [];
      ConcatAssociates(first, Reported(rest), Reported(b));
    }
  }

  /** The findings of syntax with these functions outside of functions. */
  ghost predicate OuterFindings(f: Findings, ps: seq<Placed>, tests: nat) {
    && (forall p :: p in ps ==> p.fn.Fn?)
    && f.found == Reported(ps)
    && f.skipped[NestedFunction] == Nested(ps)
    && f.skipped[CfgTest] == Counted(CfgTest, ps) + NestedTests(ps) + tests
    && forall r :: r != NestedFunction && r != CfgTest ==> f.skipped[r] == Counted(r, ps)
  }

  lemma OuterJoins(f: Findings, g: Findings, ps: seq<Placed>, qs: seq<Placed>, m: nat, n: nat)
    requires OuterFindings(f, ps, m) && OuterFindings(g, qs, n)
    ensures OuterFindings(Join(f, g), ps + qs, m + n)
  {
    hide Reported, Counted, Nested, NestedTests;
    ReportConcat(ps, qs);
  }

  lemma {:induction false} OuterMeans(ns: seq<Node>, imp: Option<EnclosingImpl>)
    ensures OuterFindings(Find(ns, false, imp), Outer(ns, imp), OuterTests(ns))
    decreases ns
  {
    hide FindIn, OuterIn, OuterTestsIn, OuterFindings, Join;
    if ns == [] {
      assert OuterFindings(NOTHING, [], 0) by { NothingOuter(); }
    } else {
      OuterMeansIn(ns[0], imp);
      OuterMeans(ns[1..], imp);
      OuterJoins(FindIn(ns[0], false, imp), Find(ns[1..], false, imp), OuterIn(ns[0], imp), Outer(ns[1..], imp),
                 OuterTestsIn(ns[0]), OuterTests(ns[1..]));
    }
  }

  lemma NothingOuter()
    ensures OuterFindings(NOTHING, [], 0)
  {
  }

  lemma OnlySpawn(arg: Planner.Range)
    ensures OuterFindings(Findings([], [arg], multiset{}), [], 0)
  {
  }

  lemma OnlyTests(n: nat)
    ensures OuterFindings(Findings([], [], multiset{}[CfgTest := n]), [], n)
  {
  }

  lemma {:induction false} OuterMeansIn(n: Node, imp: Option<EnclosingImpl>)
    ensures OuterFindings(FindIn(n, false, imp), OuterIn(n, imp), OuterTestsIn(n))
    decreases n
  {
    hide Find, Outer, OuterTests, OuterFindings, Join, SpanName, Functions, WhySkipped;
    NothingOuter();
    match n
    case Fn(_, _, _, _, _, _, _) => FunctionMeans(n, imp);
    case Impl(_, own, parts) => OuterMeans(parts, Some(own));
    case Mod(_, cfgTest, items) => if cfgTest { OnlyTests(Functions(items)); } else { OuterMeans(items, imp); }
    case OutMod(_, cfgTest, functions) => if cfgTest { OnlyTests(functions); }
    case Spawn(_, arg, callee, inner) =>
      OuterMeans(callee, imp);
      OuterMeans(inner, imp);
      OnlySpawn(arg);
      var f, g := Find(callee, false, imp), Find(inner, false, imp);
      OuterJoins(f, g, Outer(callee, imp), Outer(inner, imp), OuterTests(callee), OuterTests(inner));
      OuterJoins(Findings([], [arg], multiset{}), Join(f, g), [], Outer(callee, imp) + Outer(inner, imp),
                 0, OuterTests(callee) + OuterTests(inner));
      assert [] + (Outer(callee, imp) + Outer(inner, imp)) == Outer(callee, imp) + Outer(inner, imp);
    case Other(_, parts) => OuterMeans(parts, imp);
  }

  lemma OnePlaced(p: Placed)
    requires p.fn.Fn?
    ensures Reported([p]) == (if Eligible(p) then [Found(SpanName(p.fn, p.imp), p.fn.body)] else [])
    ensures forall r :: Counted(r, [p]) == if CountedAs(r, p) then 1 else 0
    ensures Nested([p]) == Inner(InsideOf(p)) && NestedTests([p]) == InnerTests(InsideOf(p))
  {
    hide SpanName, CountedAs, Eligible, Inner, InnerTests;
    assert [p][1..] == [];
  }

  lemma FunctionMeans(n: Node, imp: Option<EnclosingImpl>)
    requires n.Fn?
    ensures OuterFindings(FindIn(n, false, imp), [Placed(n, imp)], 0)
  {
    hide Find, Inner, InnerTests, SpanName, WhySkipped, CountedAs, Eligible, Reported, Counted, Nested, NestedTests;
    var p := Placed(n, imp);
    DecisionMeans(n, imp);
    NeverNested(p);
    InsideMeans(n.block, imp);
    InsideMeans(n.signature, imp);
    InnerConcat(n.signature, n.block);
    OnePlaced(p);
    if !Eligible(p) {
      var reason := WhySkipped(n, false, imp).value;
      OneReason(reason, Find(n.block, true, imp));
    } else {
      OneFound(Found(SpanName(n, imp), n.body), Find(n.signature, true, imp), Find(n.block, true, imp));
    }
  }

  lemma NeverNested(p: Placed)
    ensures !CountedAs(NestedFunction, p)
  {
  }

  lemma OneReason(reason: Reason, block: Findings)
    ensures var f := Join(Findings([], [], multiset{reason}), block);
            && f.found == block.found
            && forall r :: f.skipped[r] == block.skipped[r] + if r == reason then 1 else 0
  {
  }

  lemma OneFound(c: Found, signature: Findings, block: Findings)
    ensures var f := Join(Findings([c], [], multiset{}), Join(signature, block));
            && f.found == [c] + (signature.found + block.found)
            && forall r :: f.skipped[r] == signature.skipped[r] + block.skipped[r]
  {
  }

  /**
    Analyzing a file. Candidates are exactly the functions that lie in no function and no test module,
    carry none of the seven flags, and are neither polling or conversion methods nor `drop`; each counter
    but two counts exactly the functions outside of functions for which it is the first reason; the
    counter of test code adds the functions of test modules; the last counts the functions in functions.
   */
  method Analyze(file: seq<Node>) returns (candidates: seq<Found>, spawns: seq<Planner.Range>, skipped: Stats)
    ensures forall p :: p in Outer(file, None) ==> p.fn.Fn?
    ensures candidates == Reported(Outer(file, None))
    ensures forall r :: r != CfgTest && r != NestedFunction ==> skipped[r] == Counted(r, Outer(file, None))
    ensures skipped[CfgTest] == Counted(CfgTest, Outer(file, None)) + NestedTests(Outer(file, None)) + OuterTests(file)
    ensures skipped[NestedFunction] == Nested(Outer(file, None))
    ensures spawns == Find(file, false, None).spawns
  {
    hide Find, Outer, OuterTests, Reported, Counted, Nested, NestedTests;
    var finder := new CandidateFinder();
    finder.Visit(file);
    OuterMeans(file, None);
    JoinsNothing(Find(file, false, None));
    candidates, spawns, skipped := finder.candidates, finder.spawnSites, finder.skipped;
  }

  lemma JoinsNothing(f: Findings)
    ensures Join(NOTHING, f) == f
  {
    assert [] + f.found == f.found && [] + f.spawns == f.spawns && multiset{} + f.skipped == f.skipped;
  }
}
