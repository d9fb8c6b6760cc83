/**
  The syntax visitor that collects candidates and spawn sites, and the independent function
  counter (cargo-instrument/src/ast.rs:661-684, 740-760, 788-810, 892-1163).
 */
module Visitor {
  import opened Basics
  import TypeNames
  import opened Planner

  /** What the skip decision reads from a function's attributes, signature and body. */
  datatype Flags = Flags(
    cfgTest: bool, isConst: bool, hasAbi: bool, inlined: bool, instrumented: bool, selfRecursive: bool,
    handwritten: bool)

  datatype EnclosingImpl = EnclosingImpl(typeName: string, traitName: Option<string>, traitIdent: Option<string>)

  /**
    Syntax, as far as the visitors tell it apart. `method` is set for functions in impls;
    `OutMod` is a module in a file of its own, with the number of functions there; `Spawn` is a
    recognized `tokio::spawn` call.
   */
  datatype Node =
    | Fn(span: Range, method_: bool, ident: string, flags: Flags, body: Range, signature: seq<Node>, block: seq<Node>)
    | Impl(span: Range, imp: EnclosingImpl, parts: seq<Node>)
    | Mod(span: Range, cfgTest: bool, items: seq<Node>)
    | OutMod(span: Range, cfgTest: bool, functions: nat)
    | Spawn(span: Range, arg: Range, callee: seq<Node>, inner: seq<Node>)
    | Other(span: Range, parts: seq<Node>)

  datatype Reason =
    | InlineAttribute | AdapterTrait | DropImplementation | CfgTest | ConstFn | ExternAbi | SelfRecursive
    | HandwrittenOtel | NestedFunction

  /** The skip counters: how often each reason was counted. */
  type Stats = multiset<Reason>

  datatype Found = Found(name: string, body: Range)

  // ---------------------------------------------------------------------------
  // Skip reasons
  // ---------------------------------------------------------------------------

  predicate PollingAdapter(traitIdent: string, name: string) {
    || (traitIdent == "Future" && name == "poll")
    || (traitIdent == "Stream" && name == "poll_next")
    || (traitIdent == "Sink" && name in {"poll_ready", "start_send", "poll_flush", "poll_close"})
  }

  function TraitReason(imp: Option<EnclosingImpl>, name: string): Option<Reason> {
    if imp.None? || imp.value.traitIdent.None? then None
    else
      var t := imp.value.traitIdent.value;
      if PollingAdapter(t, name) then Some(AdapterTrait)
      else if t == "Drop" && name == "drop" then Some(DropImplementation)
      else if t in {"Deref", "DerefMut", "AsRef", "AsMut", "Borrow", "BorrowMut"} then Some(AdapterTrait)
      else None
  }

  /** Why a function is no candidate, the first reason that applies. */
  function WhySkipped(n: Node, inside: bool, imp: Option<EnclosingImpl>): Option<Reason>
    requires n.Fn?
  {
    var f := n.flags;
    if inside then Some(NestedFunction)
    else if f.cfgTest then Some(CfgTest)
    else if f.isConst then Some(ConstFn)
    else if f.hasAbi then Some(ExternAbi)
    else if f.inlined then Some(InlineAttribute)
    else if f.instrumented then Some(HandwrittenOtel)
    else if f.selfRecursive then Some(SelfRecursive)
    else if f.handwritten then Some(HandwrittenOtel)
    else if n.method_ then TraitReason(imp, n.ident)
    else None
  }

  /** The span name of a candidate. */
  ghost function SpanName(n: Node, imp: Option<EnclosingImpl>): string
    requires n.Fn?
  {
    if !n.method_ || imp.None? then n.ident
    else TypeNames.Normal(Qualified(imp.value, n.ident))
  }

  /** A method's qualified name as it is printed. */
  function Qualified(imp: EnclosingImpl, ident: string): string {
    if imp.traitName.Some? then "<" + imp.typeName + " as " + imp.traitName.value + ">::" + ident
    else imp.typeName + "::" + ident
  }

  /** The non-whitespace characters of a method's qualified name. */
  function QualifiedInk(imp: EnclosingImpl, ident: string): string { ImplInk(imp) + TypeNames.Ink(ident) }

  function ImplInk(imp: EnclosingImpl): string {
    var typ := TypeNames.Ink(imp.typeName);
    if imp.traitName.Some? then "<" + typ + "as" + TypeNames.Ink(imp.traitName.value) + ">::" else typ + "::"
  }

  lemma InkOfQualified(imp: EnclosingImpl, ident: string)
    ensures TypeNames.Ink(Qualified(imp, ident)) == QualifiedInk(imp, ident)
  {
    hide TypeNames.Ink;
    InkOfPunctuation();
    TypeNames.InkConcat(imp.typeName, "::");
    TypeNames.InkConcat(imp.typeName + "::", ident);
    if imp.traitName.Some? {
      var t := imp.traitName.value;
      TypeNames.InkConcat("<", imp.typeName);
      TypeNames.InkConcat("<" + imp.typeName, " as ");
      TypeNames.InkConcat("<" + imp.typeName + " as ", t);
      TypeNames.InkConcat("<" + imp.typeName + " as " + t, ">::");
      TypeNames.InkConcat("<" + imp.typeName + " as " + t + ">::", ident);
    }
  }

  lemma InkOfPunctuation()
    ensures TypeNames.Ink("<") == "<" && TypeNames.Ink("::") == "::" && TypeNames.Ink(">::") == ">::"
    ensures TypeNames.Ink(" as ") == "as"
  {
    assert "::"[1..] == ":" && ">::"[1..] == "::" && " as "[1..] == "as " && "as "[1..] == "s " && "s "[1..] == " ";
    assert "<"[1..] == "" && ":"[1..] == "" && " "[1..] == "";
  }

  /**
    A function is called by its identifier. A method's name is in normal form, without a stray space,
    and reads as its type, trait and identifier.
   */
  lemma SpanNameMeans(n: Node, imp: Option<EnclosingImpl>)
    requires n.Fn?
    ensures !n.method_ || imp.None? ==> SpanName(n, imp) == n.ident
    ensures n.method_ && imp.Some? ==>
              && TypeNames.Clean(TypeNames.RULES, SpanName(n, imp)) && TypeNames.Tight(SpanName(n, imp))
              && TypeNames.Ink(SpanName(n, imp)) == QualifiedInk(imp.value, n.ident)
  {
    hide TypeNames.Normal, TypeNames.Ink, TypeNames.Clean, TypeNames.Tight, Qualified, QualifiedInk;
    if n.method_ && imp.Some? {
      InkOfQualified(imp.value, n.ident);
      TypeNames.NormalForm(Qualified(imp.value, n.ident));
    }
  }

  /** Within one impl, methods with different identifiers get different names. */
  lemma NamesTellMethodsApart(a: Node, b: Node, imp: EnclosingImpl)
    requires a.Fn? && b.Fn? && a.method_ && b.method_
    requires TypeNames.Ink(a.ident) == a.ident && TypeNames.Ink(b.ident) == b.ident
    requires SpanName(a, Some(imp)) == SpanName(b, Some(imp))
    ensures a.ident == b.ident
  {
    hide TypeNames.Ink, SpanName, ImplInk;
    SpanNameMeans(a, Some(imp));
    SpanNameMeans(b, Some(imp));
    var head := ImplInk(imp);
    assert head + a.ident == head + b.ident;
    assert (head + a.ident)[|head|..] == a.ident && (head + b.ident)[|head|..] == b.ident;
  }

  method NameOf(n: Node, imp: Option<EnclosingImpl>) returns (name: string)
    requires n.Fn?
    ensures name == SpanName(n, imp)
    ensures !n.method_ || imp.None? ==> name == n.ident
    ensures n.method_ && imp.Some? ==>
              && TypeNames.Clean(TypeNames.RULES, name) && TypeNames.Tight(name)
              && TypeNames.Ink(name) == QualifiedInk(imp.value, n.ident)
  {
    hide TypeNames.Normal, TypeNames.Ink, TypeNames.Clean, TypeNames.Tight, QualifiedInk;
    SpanNameMeans(n, imp);
    if !n.method_ || imp.None? { return n.ident; }
    if imp.value.traitName.Some? {
      var head := "<" + imp.value.typeName + " as " + imp.value.traitName.value + ">::";
      name := TypeNames.NormalizeTypeStr(head + n.ident);
    } else {
      name := TypeNames.NormalizeTypeStr(imp.value.typeName + "::" + n.ident);
    }
  }

  // ---------------------------------------------------------------------------
  // The counter
  // ---------------------------------------------------------------------------

  /** Every function in the syntax, wherever it is. */
  function Functions(ns: seq<Node>): nat
    decreases ns
  {
    if ns == [] then 0 else FunctionsIn(ns[0]) + Functions(ns[1..])
  }

  function FunctionsIn(n: Node): nat
    decreases n
  {
    match n
    case Fn(_, _, _, _, _, signature, block) => 1 + Functions(signature) + Functions(block)
    case Impl(_, _, parts) => Functions(parts)
    case Mod(_, _, items) => Functions(items)
    case OutMod(_, _, _) => 0
    case Spawn(_, _, callee, inner) => Functions(callee) + Functions(inner)
    case Other(_, parts) => Functions(parts)
  }

  class FnCounter {
    var count: nat

    constructor ()
      ensures count == 0
    {
      count := 0;
    }

    method Visit(ns: seq<Node>)
      modifies this
      ensures count == old(count) + Functions(ns)
      decreases ns
    {
      if ns != [] {
        VisitNode(ns[0]);
        Visit(ns[1..]);
      }
    }

    method VisitNode(n: Node)
      modifies this
      ensures count == old(count) + FunctionsIn(n)
      decreases n
    {
      match n
      case Fn(_, _, _, _, _, signature, block) =>
        count := count + 1;
        Visit(signature);
        Visit(block);
      case Impl(_, _, parts) => Visit(parts);
      case Mod(_, _, items) => Visit(items);
      case OutMod(_, _, _) =>
      case Spawn(_, _, callee, inner) => Visit(callee); Visit(inner);
      case Other(_, parts) => Visit(parts);
    }
  }

  /** `count_all_functions_in_mod`: what a skipped test module adds to the counter of test functions. */
  function TestFunctions(n: Node): nat
    requires n.Mod? || n.OutMod?
  {
    if n.Mod? then Functions(n.items) else n.functions
  }

  // ---------------------------------------------------------------------------
  // What one traversal finds
  // ---------------------------------------------------------------------------

  datatype Findings = Findings(found: seq<Found>, spawns: seq<Range>, skipped: Stats)

  const NOTHING := Findings([], [], multiset{})

  function Join(a: Findings, b: Findings): Findings {
    Findings(a.found + b.found, a.spawns + b.spawns, a.skipped + b.skipped)
  }

  ghost function Find(ns: seq<Node>, inside: bool, imp: Option<EnclosingImpl>): Findings
    decreases ns
  {
    if ns == [] then NOTHING else Join(FindIn(ns[0], inside, imp), Find(ns[1..], inside, imp))
  }

  ghost function FindIn(n: Node, inside: bool, imp: Option<EnclosingImpl>): Findings
    decreases n
  {
    match n
    case Fn(_, _, _, _, body, signature, block) =>
      var reason := WhySkipped(n, inside, imp);
      if reason.Some? then Join(Findings([], [], multiset{reason.value}), Find(block, true, imp))
      else
        Join(Findings([Found(SpanName(n, imp), body)], [], multiset{}),
             Join(Find(signature, true, imp), Find(block, true, imp)))
    case Impl(_, own, parts) => Find(parts, inside, Some(own))
    case Mod(_, cfgTest, items) =>
      if cfgTest then Findings([], [], multiset{}[CfgTest := TestFunctions(n)]) else Find(items, inside, imp)
    case OutMod(_, cfgTest, _) => if cfgTest then Findings([], [], multiset{}[CfgTest := TestFunctions(n)]) else NOTHING
    case Spawn(_, arg, callee, inner) =>
      Join(Findings([], [arg], multiset{}), Join(Find(callee, inside, imp), Find(inner, inside, imp)))
    case Other(_, parts) => Find(parts, inside, imp)
  }

  class CandidateFinder {
    var candidates: seq<Found>
    var spawnSites: seq<Range>
    var currentImpl: Option<EnclosingImpl>
    var insideFnBody: bool
    var skipped: Stats

    constructor ()
      ensures Report() == NOTHING && currentImpl == None && !insideFnBody
    {
      candidates, spawnSites, currentImpl, insideFnBody, skipped := [], [], None, false, multiset{};
    }

    ghost function Report(): Findings
      reads this
    {
      Findings(candidates, spawnSites, skipped)
    }

    /** Sibling syntax, left to right; the context is restored afterwards. */
    method Visit(ns: seq<Node>)
      modifies this
      ensures Report() == Join(old(Report()), Find(ns, old(insideFnBody), old(currentImpl)))
      ensures insideFnBody == old(insideFnBody) && currentImpl == old(currentImpl)
      decreases ns, 0
    {
      hide FindIn, Join;
      JoinNothing(Report());
      if ns != [] {
        VisitNode(ns[0]);
        Visit(ns[1..]);
        var first, others := FindIn(ns[0], insideFnBody, currentImpl), Find(ns[1..], insideFnBody, currentImpl);
        JoinAssociates(old(Report()), first, others);
      }
    }

    /** A list of siblings, visited with another flag and impl. */
    method VisitWith(ns: seq<Node>, inside: bool, imp: Option<EnclosingImpl>)
      modifies this
      ensures Report() == Join(old(Report()), Find(ns, inside, imp))
      ensures insideFnBody == old(insideFnBody) && currentImpl == old(currentImpl)
      decreases ns, 1
    {
      hide Find, Join;
      var prevInside, prevImpl := insideFnBody, currentImpl;
      insideFnBody, currentImpl := inside, imp;
      Visit(ns);
      insideFnBody, currentImpl := prevInside, prevImpl;
    }

    method VisitNode(n: Node)
      modifies this
      ensures Report() == Join(old(Report()), FindIn(n, old(insideFnBody), old(currentImpl)))
      ensures insideFnBody == old(insideFnBody) && currentImpl == old(currentImpl)
      decreases n, 1
    {
      hide Find, WhySkipped, SpanName, Join, TestFunctions;
      match n
      case Fn(_, _, _, _, _, _, _) =>
        var reason := WhySkipped(n, insideFnBody, currentImpl);
        if reason.Some? { VisitSkipped(n, reason.value); } else { VisitCandidate(n); }
      case Impl(_, own, parts) => VisitWith(parts, insideFnBody, Some(own));
      case Mod(_, cfgTest, items) => if cfgTest { CountTests(n); } else { Visit(items); }
      case OutMod(_, cfgTest, _) => if cfgTest { CountTests(n); } else { JoinNothing(Report()); }
      case Spawn(_, arg, callee, inner) =>
        ghost var before := Report();
        spawnSites := spawnSites + [arg];
        JoinSpawn(before, arg);
        Visit(callee);
        Visit(inner);
        ghost var site := Findings([], [arg], multiset{});
        ghost var f, g := Find(callee, insideFnBody, currentImpl), Find(inner, insideFnBody, currentImpl);
        JoinAssociates(Join(before, site), f, g);
        JoinAssociates(before, site, Join(f, g));
      case Other(_, parts) => Visit(parts);
    }

    method CountTests(n: Node)
      requires n.Mod? || n.OutMod?
      modifies this`skipped
      ensures Report() == Join(old(Report()), Findings([], [], multiset{}[CfgTest := TestFunctions(n)]))
    {
      hide TestFunctions;
      JoinTests(Report(), TestFunctions(n));
      skipped := skipped[CfgTest := skipped[CfgTest] + TestFunctions(n)];
    }

    /** A skipped function: only its body is visited, as the inside of a function. */
    method VisitSkipped(n: Node, reason: Reason)
      requires n.Fn? && WhySkipped(n, insideFnBody, currentImpl) == Some(reason)
      modifies this
      ensures Report() == Join(old(Report()), FindIn(n, old(insideFnBody), old(currentImpl)))
      ensures insideFnBody == old(insideFnBody) && currentImpl == old(currentImpl)
      decreases n, 0
    {
      hide Find, WhySkipped, Join;
      ghost var before := Report();
      ghost var one := Findings([], [], multiset{reason});
      JoinSkip(before, reason);
      skipped := skipped[reason := skipped[reason] + 1];
      VisitWith(n.block, true, currentImpl);
      JoinAssociates(before, one, Find(n.block, true, currentImpl));
    }

    /** A candidate: recorded first, then its signature and body are visited as the inside of a function. */
    method VisitCandidate(n: Node)
      requires n.Fn? && WhySkipped(n, insideFnBody, currentImpl) == None
      modifies this
      ensures Report() == Join(old(Report()), FindIn(n, old(insideFnBody), old(currentImpl)))
      ensures insideFnBody == old(insideFnBody) && currentImpl == old(currentImpl)
      decreases n, 0
    {
      hide Find, WhySkipped, SpanName, Join;
      ghost var before := Report();
      var name := NameOf(n, currentImpl);
      ghost var one := Findings([Found(name, n.body)], [], multiset{});
      JoinCandidate(before, Found(name, n.body));
      candidates := candidates + [Found(name, n.body)];
      VisitWith(n.signature, true, currentImpl);
      VisitWith(n.block, true, currentImpl);
      ghost var a := Find(n.signature, true, currentImpl);
      ghost var b := Find(n.block, true, currentImpl);
      JoinAssociates(Join(before, one), a, b);
      JoinAssociates(before, one, Join(a, b));
    }
  }

  lemma JoinAssociates(a: Findings, b: Findings, c: Findings)
    ensures Join(Join(a, b), c) == Join(a, Join(b, c))
  {
    assert (a.found + b.found) + c.found == a.found + (b.found + c.found);
    assert (a.spawns + b.spawns) + c.spawns == a.spawns + (b.spawns + c.spawns);
  }

  lemma JoinTests(a: Findings, n: nat)
    ensures Join(a, Findings([], [], multiset{}[CfgTest := n]))
         == a.(skipped := a.skipped[CfgTest := a.skipped[CfgTest] + n])
  {
    assert a.found + [] == a.found && a.spawns + [] == a.spawns;
    assert a.skipped + multiset{}[CfgTest := n] == a.skipped[CfgTest := a.skipped[CfgTest] + n];
  }

  lemma JoinSkip(a: Findings, r: Reason)
    ensures Join(a, Findings([], [], multiset{r})) == a.(skipped := a.skipped[r := a.skipped[r] + 1])
  {
    assert a.found + [] == a.found && a.spawns + [] == a.spawns;
    assert a.skipped + multiset{r} == a.skipped[r := a.skipped[r] + 1];
  }

  lemma JoinSpawn(a: Findings, arg: Range)
    ensures Join(a, Findings([], [arg], multiset{})) == a.(spawns := a.spawns + [arg])
  {
    assert a.found + [] == a.found && a.skipped + multiset{} == a.skipped;
  }

  lemma JoinCandidate(a: Findings, f: Found)
    ensures Join(a, Findings([f], [], multiset{})) == a.(found := a.found + [f])
  {
    assert a.spawns + [] == a.spawns && a.skipped + multiset{} == a.skipped;
  }

  lemma JoinNothing(a: Findings)
    ensures Join(a, NOTHING) == a
  {
    assert a.found + [] == a.found && a.spawns + [] == a.spawns;
    assert a.skipped + multiset{} == a.skipped;
  }
}
