/** What the C-ABI trampoline emission means (cargo-instrument/src/transform.rs:936-1071). */
module Trampoline {
  import opened Basics
  import opened Shim

  // A small imperative language with calls, early return, `Result` values, panics, `catch_unwind`,
  // destructors and telemetry-suppressed scopes is given an operational semantics together with the
  // four constructs the emitter adds: the guard, the immediately called closure, the error mark and
  // the final `__otel_res`. Both programs run in the same semantics.
  //
  // Only calls and loop iterations consume fuel, so equality at every fuel covers every terminating
  // run and makes the two programs diverge together.

  datatype Value = Unit | Int(n: int) | Ok(n: int) | Err(n: int)

  /** Everything user code can see: locals of the frame, shared memory and the output so far. */
  datatype User = User(locals: map<string, Value>, heap: map<int, Value>, out: seq<Value>)

  datatype Stmt =
    | Do(op: User -> User)
    | Return(value: User -> Value)
    | Panic
    | Seq(first: Stmt, second: Stmt)
    | If(cond: User -> bool, thn: Stmt, els: Stmt)
    | While(cond: User -> bool, body: Stmt)
    | Invoke(callee: string, arg: User -> Value, dest: string)
    | CatchUnwind(body: Stmt)
    | Defer(cleanup: Stmt, body: Stmt)   // a local whose destructor runs `cleanup`
    | Suppressed(body: Stmt)             // inside a telemetry-suppressed scope
    // Emitted code
    | Guarded(name: string, body: Stmt)  // let __otel_guard = __OtelGuard(enter(name)); body
    | BindClosure(body: Stmt)            // let __otel_res = (|| { body })();
    | MarkIfErr                          // if __otel_res.is_err() && __otel_guard.0 != 0 { set_error }
    | ReturnBound                        // __otel_res

  /** `selected`: the plan rewrote its body; `wraps`: it returns a Result and neither a reference nor a lifetime. */
  datatype Fn = Fn(name: string, selected: bool, wraps: bool, body: Stmt)

  type Program = map<string, Fn>

  datatype Outcome = Finished(value: Value) | Unwound | Aborted

  /** The calls a run made, in order, each with the calls made inside it. */
  datatype Tree = Node(fn: string, outcome: Outcome, kids: seq<Tree>) | Quiet(kids: seq<Tree>)

  datatype Ctl = Next | Returned(v: Value) | Unwind | Abort

  /** A frame: user state, shim state and the two locals of the emitted code. */
  datatype Machine = Machine(user: User, st: St, handle: nat, bound: Value)

  datatype Result = OutOfFuel | Fin(m: Machine, ctl: Ctl, calls: seq<Tree>)

  function OutcomeOf(c: Ctl): Outcome {
    match c
    case Next => Finished(Unit)
    case Returned(v) => Finished(v)
    case Unwind => Unwound
    case Abort => Aborted
  }

  /** Continue in the caller once the callee's frame `inner` is gone. */
  function Resume(caller: Machine, callee: string, dest: string, inner: Result): Result
    requires inner.Fin?
  {
    var user := User(caller.user.locals, inner.m.user.heap, inner.m.user.out);
    var node := [Node(callee, OutcomeOf(inner.ctl), inner.calls)];
    match OutcomeOf(inner.ctl)
    case Finished(v) => Fin(caller.(user := user.(locals := user.locals[dest := v]), st := inner.m.st), Next, node)
    case Unwound => Fin(caller.(user := user, st := inner.m.st), Unwind, node)
    case Aborted => Fin(caller.(user := user, st := inner.m.st), Abort, node)
  }

  function Eval(p: Program, sdk: Sdk, fuel: nat, s: Stmt, m: Machine): Result
    decreases fuel, s
  {
    match s
    case Do(op) => Fin(m.(user := op(m.user)), Next, [])
    case Return(value) => Fin(m, Returned(value(m.user)), [])
    case Panic => Fin(m, Unwind, [])
    case Seq(first, second) =>
      var a := Eval(p, sdk, fuel, first, m);
      if a.OutOfFuel? || a.ctl != Next then a
      else
        var b := Eval(p, sdk, fuel, second, a.m);
        if b.OutOfFuel? then b else b.(calls := a.calls + b.calls)
    case If(cond, thn, els) => if cond(m.user) then Eval(p, sdk, fuel, thn, m) else Eval(p, sdk, fuel, els, m)
    case While(cond, body) =>
      if !cond(m.user) then Fin(m, Next, [])
      else if fuel == 0 then OutOfFuel
      else
        var a := Eval(p, sdk, fuel - 1, body, m);
        if a.OutOfFuel? || a.ctl != Next then a
        else
          var b := Eval(p, sdk, fuel - 1, s, a.m);
          if b.OutOfFuel? then b else b.(calls := a.calls + b.calls)
    case Invoke(callee, arg, dest) =>
      if callee !in p then Fin(m, Next, [])  // foreign code
      else if fuel == 0 then OutOfFuel
      else
        var frame := Machine(User(map["arg" := arg(m.user)], m.user.heap, m.user.out), m.st, 0, Unit);
        var inner := Eval(p, sdk, fuel - 1, p[callee].body, frame);
        if inner.OutOfFuel? then OutOfFuel else Resume(m, callee, dest, inner)
    case CatchUnwind(body) =>
      var a := Eval(p, sdk, fuel, body, m);
      if a.OutOfFuel? || a.ctl != Unwind then a else a.(ctl := Next)
    case Defer(cleanup, body) =>
      var a := Eval(p, sdk, fuel, body, m);
      if a.OutOfFuel? || a.ctl == Abort then a
      else
        var b := Eval(p, sdk, fuel, cleanup, a.m);
        if b.OutOfFuel? then b
        else
          var ctl := if b.ctl == Abort || (b.ctl == Unwind && a.ctl == Unwind) then Abort
                     else if b.ctl == Unwind then Unwind
                     else a.ctl;
          Fin(b.m, ctl, a.calls + b.calls)
    case Suppressed(body) =>
      var saved := m.st.current;
      var a := Eval(p, sdk, fuel, body, m.(st := m.st.(current := saved.(suppressed := true))));
      if a.OutOfFuel? then a else a.(m := a.m.(st := a.m.st.(current := saved)), calls := [Quiet(a.calls)])
    case Guarded(name, body) =>
      var (h, entered) := Entered(sdk, name, m.st);
      if entered.dead then Fin(m.(st := entered), Abort, [])
      else
        var a := Eval(p, sdk, fuel, body, m.(st := entered, handle := h));
        if a.OutOfFuel? || a.ctl == Abort then a
        else
          var left := if h != 0 then Exited(sdk, h, a.m.st) else a.m.st;
          a.(m := a.m.(st := left, handle := m.handle))
    case BindClosure(body) =>
      var a := Eval(p, sdk, fuel, body, m);
      if a.OutOfFuel? then a
      else if OutcomeOf(a.ctl).Finished? then a.(m := a.m.(bound := OutcomeOf(a.ctl).value), ctl := Next)
      else a
    case MarkIfErr =>
      if m.bound.Err? && m.handle != 0 then Fin(m.(st := Marked(sdk, m.handle, m.st)), Next, [])
      else Fin(m, Next, [])
    case ReturnBound => Fin(m, Returned(m.bound), [])
  }

  /** User-written code: none of the emitted constructs. */
  predicate Plain(s: Stmt) {
    match s
    case Seq(a, b) => Plain(a) && Plain(b)
    case If(_, a, b) => Plain(a) && Plain(b)
    case While(_, b) => Plain(b)
    case CatchUnwind(b) => Plain(b)
    case Defer(c, b) => Plain(c) && Plain(b)
    case Suppressed(b) => Plain(b)
    case Do(_) => true
    case Return(_) => true
    case Panic => true
    case Invoke(_, _, _) => true
    case _ => false
  }

  ghost predicate PlainProgram(p: Program) { forall f :: f in p ==> Plain(p[f].body) }

  /** The emitted body: a guard around the closure form, or around the body itself. */
  function Rewrite(f: Fn): Fn {
    if !f.selected then f
    else if f.wraps then f.(body := Guarded(f.name, Seq(BindClosure(f.body), Seq(MarkIfErr, ReturnBound))))
    else f.(body := Guarded(f.name, f.body))
  }

  function Instrument(p: Program): Program { map f | f in p :: Rewrite(p[f]) }

  // ---------------------------------------------------------------------------
  // Which spans a call forest should give, with no reference to a stack.
  // ---------------------------------------------------------------------------

  /** The SDK's counters: enters attempted, spans started, next ticket. */
  datatype Counters = Counters(starts: nat, nextSpan: nat, next: nat)

  function CountersOf(st: St): Counters { Counters(st.starts, st.nextSpan, st.next) }

  predicate Failed(p: Program, t: Tree) {
    t.Node? && t.fn in p && p[t.fn].wraps && t.outcome.Finished? && t.outcome.value.Err?
  }

  predicate Attempts(p: Program, t: Tree, cx: Ctx) {
    t.Node? && t.fn in p && p[t.fn].selected && p[t.fn].name != "" && !cx.suppressed
  }

  /** Spans of one call: those of the calls inside it, then its own, parented to `cx`. */
  function SpansOf(p: Program, sdk: Sdk, t: Tree, cx: Ctx, k: Counters): (seq<Span>, Counters)
    decreases t, 0
  {
    match t
    case Quiet(kids) => Spans(p, sdk, kids, cx.(suppressed := true), k)
    case Node(fn, outcome, kids) =>
      if !Attempts(p, t, cx) then Spans(p, sdk, kids, cx, k)
      else
        var id := k.nextSpan;
        match sdk.fault(k.starts)
        case Early => Spans(p, sdk, kids, cx, k.(starts := k.starts + 1))
        case Late =>
          var (inner, k1) := Spans(p, sdk, kids, cx, k.(starts := k.starts + 1, nextSpan := id + 1));
          ([Span(id, p[fn].name, cx.span, false)] + inner, k1)
        case NoFault =>
          var k0 := Counters(k.starts + 1, id + 1, AfterTicket(k.next));
          var (inner, k1) := Spans(p, sdk, kids, Ctx(Some(id), false), k0);
          (inner + [Span(id, p[fn].name, cx.span, Failed(p, t) && !sdk.errorFault(id))], k1)
  }

  function Spans(p: Program, sdk: Sdk, ts: seq<Tree>, cx: Ctx, k: Counters): (seq<Span>, Counters)
    decreases ts, 1
  {
    if ts == [] then ([], k)
    else
      var (a, k1) := SpansOf(p, sdk, ts[0], cx, k);
      var (b, k2) := Spans(p, sdk, ts[1..], cx, k1);
      (a + b, k2)
  }

  lemma {:induction false} SpansAppend(p: Program, sdk: Sdk, xs: seq<Tree>, ys: seq<Tree>, cx: Ctx, k: Counters)
    ensures var (a, k1) := Spans(p, sdk, xs, cx, k);
            var (b, k2) := Spans(p, sdk, ys, cx, k1);
            Spans(p, sdk, xs + ys, cx, k) == (a + b, k2)
    decreases |xs|
  {
    if xs == [] {
      assert xs + ys == ys;
      assert [] + Spans(p, sdk, ys, cx, k).0 == Spans(p, sdk, ys, cx, k).0;
    } else {
      var (a0, k0) := SpansOf(p, sdk, xs[0], cx, k);
      SpansAppend(p, sdk, xs[1..], ys, cx, k0);
      assert (xs + ys)[0] == xs[0] && (xs + ys)[1..] == xs[1..] + ys;
      var (a1, k1) := Spans(p, sdk, xs[1..], cx, k0);
      ConcatAssociates(a0, a1, Spans(p, sdk, ys, cx, k1).0);
    }
  }

  /** The shim state a forest leads to: only the finished spans and the counters move. */
  function Traced(p: Program, sdk: Sdk, ts: seq<Tree>, st: St): St {
    var (spans, k) := Spans(p, sdk, ts, st.current, CountersOf(st));
    st.(finished := st.finished + spans, starts := k.starts, nextSpan := k.nextSpan, next := k.next)
  }

  lemma TracedAppend(p: Program, sdk: Sdk, xs: seq<Tree>, ys: seq<Tree>, st: St)
    ensures Traced(p, sdk, xs + ys, st) == Traced(p, sdk, ys, Traced(p, sdk, xs, st))
  {
    hide Spans;
    SpansAppend(p, sdk, xs, ys, st.current, CountersOf(st));
    var (a, k1) := Spans(p, sdk, xs, st.current, CountersOf(st));
    ConcatAssociates(st.finished, a, Spans(p, sdk, ys, st.current, k1).0);
  }

  lemma TracedSingleton(p: Program, sdk: Sdk, t: Tree, st: St)
    ensures Spans(p, sdk, [t], st.current, CountersOf(st)) == SpansOf(p, sdk, t, st.current, CountersOf(st))
  {
    var (a, k1) := SpansOf(p, sdk, t, st.current, CountersOf(st));
    assert Spans(p, sdk, [t][1..], st.current, k1) == ([], k1);
    assert a + [] == a;
  }

  // ---------------------------------------------------------------------------
  // Preservation
  // ---------------------------------------------------------------------------

  /** No export of a span just started panics while a late enter fault is already unwinding. */
  ghost predicate NoDoublePanic(sdk: Sdk) {
    forall k: nat, span: Span ::
      sdk.fault(k) == Late && span.name != "" && !span.error ==> !Panics(sdk.exporter(span))
  }

  /** A state of application code: outside the shim, process alive. */
  predicate Outside(st: St) { !st.inShim && !st.dead }

  /** What a run does apart from the shim: it diverges, or ends this way after these calls with this memory. */
  datatype Observation = Diverges | Ends(ctl: Ctl, calls: seq<Tree>, user: User)

  function Observed(r: Result): Observation {
    if r.OutOfFuel? then Diverges else Ends(r.ctl, r.calls, r.m.user)
  }

  /** How the run of the instrumented program, started in `t`, relates to the original run. */
  ghost predicate Matches(p: Program, sdk: Sdk, original: Result, rewritten: Result, t: Machine) {
    && Observed(rewritten) == Observed(original)
    && (original.Fin? && original.ctl != Abort ==>
        rewritten.m == Machine(original.m.user, Traced(p, sdk, original.calls, t.st), t.handle, t.bound))
  }

  /** A started application: a program of user code, a shim at rest and no double panic. */
  ghost predicate Ready(p: Program, sdk: Sdk, t: Machine) {
    PlainProgram(p) && Outside(t.st) && NoDoublePanic(sdk)
  }

  /** Both runs of one statement: the original in frame `m`, the rewritten one in frame `t`. */
  ghost predicate Agree(p: Program, sdk: Sdk, fuel: nat, s: Stmt, m: Machine, t: Machine) {
    Matches(p, sdk, Eval(p, sdk, fuel, s, m), Eval(Instrument(p), sdk, fuel, s, t), t)
  }

  /** The rewritten frame once a part of the body that made `calls` has run. */
  function After(p: Program, sdk: Sdk, a: Machine, calls: seq<Tree>, t: Machine): Machine {
    Machine(a.user, Traced(p, sdk, calls, t.st), t.handle, t.bound)
  }

  /** From any shim state, user code behaves the same in both programs and leaves exactly its spans. */
  lemma {:induction false} Preserved(p: Program, sdk: Sdk, fuel: nat, s: Stmt, m: Machine, t: Machine)
    requires Ready(p, sdk, t) && Plain(s) && t.user == m.user
    ensures Agree(p, sdk, fuel, s, m, t)
    decreases fuel, s, 1
  {
    match s
    case Do(op) => 
    case Return(value) => 
    case Panic => 
    case Seq(first, second) => PreservedSeq(p, sdk, fuel, s, m, t);
    case If(cond, thn, els) =>
      Preserved(p, sdk, fuel, thn, m, t);
      Preserved(p, sdk, fuel, els, m, t);
    case While(cond, body) => PreservedWhile(p, sdk, fuel, s, m, t);
    case Invoke(callee, arg, dest) => PreservedInvoke(p, sdk, fuel, s, m, t);
    case CatchUnwind(body) => Preserved(p, sdk, fuel, body, m, t);
    case Defer(cleanup, body) => PreservedDefer(p, sdk, fuel, s, m, t);
    case Suppressed(body) => PreservedSuppressed(p, sdk, fuel, s, m, t);
  }

  lemma {:induction false} PreservedSeq(p: Program, sdk: Sdk, fuel: nat, s: Stmt, m: Machine, t: Machine)
    requires Ready(p, sdk, t) && Plain(s) && t.user == m.user && s.Seq?
    ensures Agree(p, sdk, fuel, s, m, t)
    decreases fuel, s, 0
  {
    hide NoDoublePanic, PlainProgram, Spans, Instrument;
    Preserved(p, sdk, fuel, s.first, m, t);
    var a := Eval(p, sdk, fuel, s.first, m);
    if a.Fin? && a.ctl == Next {
      Preserved(p, sdk, fuel, s.second, a.m, After(p, sdk, a.m, a.calls, t));
      var b := Eval(p, sdk, fuel, s.second, a.m);
      if b.Fin? { TracedAppend(p, sdk, a.calls, b.calls, t.st); }
    }
  }

  lemma {:induction false} PreservedWhile(p: Program, sdk: Sdk, fuel: nat, s: Stmt, m: Machine, t: Machine)
    requires Ready(p, sdk, t) && Plain(s) && t.user == m.user && s.While?
    ensures Agree(p, sdk, fuel, s, m, t)
    decreases fuel, s, 0
  {
    hide NoDoublePanic, PlainProgram, Instrument;
    if s.cond(m.user) && fuel > 0 {
      Preserved(p, sdk, fuel - 1, s.body, m, t);
      var a := Eval(p, sdk, fuel - 1, s.body, m);
      if a.Fin? && a.ctl == Next {
        Preserved(p, sdk, fuel - 1, s, a.m, After(p, sdk, a.m, a.calls, t));
        var b := Eval(p, sdk, fuel - 1, s, a.m);
        if b.Fin? { TracedAppend(p, sdk, a.calls, b.calls, t.st); }
      }
    }
  }

  lemma {:induction false} PreservedDefer(p: Program, sdk: Sdk, fuel: nat, s: Stmt, m: Machine, t: Machine)
    requires Ready(p, sdk, t) && Plain(s) && t.user == m.user && s.Defer?
    ensures Agree(p, sdk, fuel, s, m, t)
    decreases fuel, s, 0
  {
    hide NoDoublePanic, PlainProgram, Spans, Instrument;
    Preserved(p, sdk, fuel, s.body, m, t);
    var a := Eval(p, sdk, fuel, s.body, m);
    if a.Fin? && a.ctl != Abort {
      Preserved(p, sdk, fuel, s.cleanup, a.m, After(p, sdk, a.m, a.calls, t));
      var b := Eval(p, sdk, fuel, s.cleanup, a.m);
      if b.Fin? { TracedAppend(p, sdk, a.calls, b.calls, t.st); }
    }
  }

  lemma {:induction false} PreservedSuppressed(p: Program, sdk: Sdk, fuel: nat, s: Stmt, m: Machine, t: Machine)
    requires Ready(p, sdk, t) && Plain(s) && t.user == m.user && s.Suppressed?
    ensures Agree(p, sdk, fuel, s, m, t)
    decreases fuel, s, 0
  {
    hide NoDoublePanic, PlainProgram, Spans, Instrument;
    var hushed := m.(st := m.st.(current := m.st.current.(suppressed := true)));
    Preserved(p, sdk, fuel, s.body, hushed, t.(st := t.st.(current := t.st.current.(suppressed := true))));
    var a := Eval(p, sdk, fuel, s.body, hushed);
    if a.Fin? && a.ctl != Abort { TracedSingleton(p, sdk, Quiet(a.calls), t.st); }
  }

  lemma {:induction false} PreservedInvoke(p: Program, sdk: Sdk, fuel: nat, s: Stmt, m: Machine, t: Machine)
    requires Ready(p, sdk, t) && Plain(s) && t.user == m.user && s.Invoke?
    ensures Agree(p, sdk, fuel, s, m, t)
    decreases fuel, s, 0
  {
    hide NoDoublePanic;
    if s.callee in p && fuel > 0 {
      var user := User(map["arg" := s.arg(m.user)], m.user.heap, m.user.out);
      PreservedCall(p, sdk, fuel - 1, s.callee, Machine(user, m.st, 0, Unit), Machine(user, t.st, 0, Unit));
    }
  }

  /** What the caller gets from a body: its outcome, the calls it made and the memory it left. */
  function Answer(r: Result): Option<(Outcome, seq<Tree>, User)> {
    if r.OutOfFuel? then None else Some((OutcomeOf(r.ctl), r.calls, r.m.user))
  }

  /** How the run `w` of the rewritten body of one call relates to the run `r` of the original body. */
  ghost predicate CallMatches(p: Program, sdk: Sdk, callee: string, r: Result, w: Result, st: St) {
    && Answer(w) == Answer(r)
    && (r.Fin? && r.ctl != Abort ==> w.m.st == Traced(p, sdk, [Node(callee, OutcomeOf(r.ctl), r.calls)], st))
  }

  /** One call: the rewritten body gives the original outcome and the spans of the call's node. */
  lemma {:induction false} PreservedCall(p: Program, sdk: Sdk, fuel: nat, callee: string, m: Machine, t: Machine)
    requires Ready(p, sdk, t) && callee in p && t.user == m.user
    ensures CallMatches(p, sdk, callee, Eval(p, sdk, fuel, p[callee].body, m),
                        Eval(Instrument(p), sdk, fuel, Instrument(p)[callee].body, t), t.st)
    decreases fuel, p[callee].body, 2
  {
    var f := p[callee];
    var r := Eval(p, sdk, fuel, f.body, m);
    if !f.selected {
      Preserved(p, sdk, fuel, f.body, m, t);
      if r.Fin? { TracedSingleton(p, sdk, Node(callee, OutcomeOf(r.ctl), r.calls), t.st); }
    } else {
      EnterEffect(sdk, f.name, t.st);
      var (h, entered) := Entered(sdk, f.name, t.st);
      var inside := t.(st := entered, handle := h);
      Preserved(p, sdk, fuel, f.body, m, inside);
      GuardedCall(p, sdk, fuel, callee, r, t, Eval(Instrument(p), sdk, fuel, f.body, inside));
    }
  }

  /** The guard, the closure and the error mark around a body that already matches. */
  lemma GuardedCall(p: Program, sdk: Sdk, fuel: nat, callee: string, r: Result, t: Machine, b: Result)
    requires Ready(p, sdk, t) && callee in p && p[callee].selected
    requires var (h, entered) := Entered(sdk, p[callee].name, t.st);
             var inside := t.(st := entered, handle := h);
             && b == Eval(Instrument(p), sdk, fuel, p[callee].body, inside)
             && Matches(p, sdk, r, b, inside)
    ensures CallMatches(p, sdk, callee, r, Eval(Instrument(p), sdk, fuel, Instrument(p)[callee].body, t), t.st)
  {
    hide PlainProgram;
    var f := p[callee];
    var q := Instrument(p);
    var (h, entered) := Entered(sdk, f.name, t.st);
    var inside := t.(st := entered, handle := h);
    EnterEffect(sdk, f.name, t.st);
    if f.wraps {
      ClosureForm(q, sdk, fuel, f.body, inside, b);
    }
    if r.Fin? && r.ctl != Abort {
      var node := Node(callee, OutcomeOf(r.ctl), r.calls);
      TracedSingleton(p, sdk, node, t.st);
      var marked := if f.wraps && h != 0 && Failed(p, node) then Marked(sdk, h, b.m.st) else b.m.st;
      LeaveEffect(p, sdk, node, t.st, h, entered, b.m.st, marked);
    }
  }

  /** What the closure form evaluates to, given the run `b` of the body inside it. */
  lemma {:induction false} ClosureForm(q: Program, sdk: Sdk, fuel: nat, body: Stmt, m: Machine, b: Result)
    requires b == Eval(q, sdk, fuel, body, m)
    ensures var whole := Eval(q, sdk, fuel, Seq(BindClosure(body), Seq(MarkIfErr, ReturnBound)), m);
            match OutcomeOfResult(b)
            case None => whole.OutOfFuel?
            case Some(Finished(v)) =>
              var st := if v.Err? && b.m.handle != 0 then Marked(sdk, b.m.handle, b.m.st) else b.m.st;
              whole == Fin(b.m.(bound := v, st := st), Returned(v), b.calls)
            case Some(_) => whole == b
  {
    var closed := Eval(q, sdk, fuel, BindClosure(body), m);
    if b.Fin? && OutcomeOf(b.ctl).Finished? {
      var v := OutcomeOf(b.ctl).value;
      assert closed == Fin(b.m.(bound := v), Next, b.calls);
      var mark := Eval(q, sdk, fuel, MarkIfErr, closed.m);
      assert Eval(q, sdk, fuel, ReturnBound, mark.m) == Fin(mark.m, Returned(v), []);
      assert Eval(q, sdk, fuel, Seq(MarkIfErr, ReturnBound), closed.m) == Fin(mark.m, Returned(v), [] + []);
      assert b.calls + ([] + []) == b.calls;
    }
  }

  function OutcomeOfResult(r: Result): Option<Outcome> {
    if r.OutOfFuel? then None else Some(OutcomeOf(r.ctl))
  }

  /** Dropping the guard turns the state after the body into the state the call's node predicts. */
  lemma LeaveEffect(p: Program, sdk: Sdk, node: Tree, st: St, h: nat, entered: St, body: St, marked: St)
    requires node.Node? && node.fn in p && p[node.fn].selected && Outside(st) && NoDoublePanic(sdk)
    requires (h, entered) == Entered(sdk, p[node.fn].name, st)
    requires body == Traced(p, sdk, node.kids, entered)
    requires marked == if h != 0 && Failed(p, node) then Marked(sdk, h, body) else body
    ensures (if h != 0 then Exited(sdk, h, marked) else marked).(finished := [], starts := 0, nextSpan := 0, next := 0)
            == st.(finished := [], starts := 0, nextSpan := 0, next := 0)
    ensures var left := if h != 0 then Exited(sdk, h, marked) else marked;
            var (spans, k) := SpansOf(p, sdk, node, st.current, CountersOf(st));
            left.finished == st.finished + spans && CountersOf(left) == k
  {
    EnterEffect(sdk, p[node.fn].name, st);
    if h != 0 {
      ExitEffect(sdk, h, marked);
      assert body.stack[..|body.stack| - 1] == st.stack;
      var top := |body.stack| - 1;
      assert FindLast(body.stack, HandleOf, h) == top;
      assert marked.stack[..top] == st.stack;
    }
    var (inner, k1) := Spans(p, sdk, node.kids, entered.current, CountersOf(entered));
  }

  /**
    The main theorem. From any shim state at rest, the instrumented program diverges exactly
    when the original does; otherwise it ends with the same value, Err, unwind or abort, the
    same memory and output, and (unless the process aborted) the same span stack, context and
    flag, having finished exactly the spans that the original's own calls call for.
   */
  lemma {:induction false} InstrumentationPreservesMeaning(p: Program, sdk: Sdk, fuel: nat, s: Stmt, m: Machine)
    requires Ready(p, sdk, m) && Plain(s)
    ensures var original := Eval(p, sdk, fuel, s, m);
            var rewritten := Eval(Instrument(p), sdk, fuel, s, m);
            && Observed(rewritten) == Observed(original)
            && (original.Fin? && original.ctl != Abort ==>
                var left := rewritten.m.st;
                && left.stack == m.st.stack && left.current == m.st.current && !left.inShim && !left.dead
                && left.finished == m.st.finished
                                    + Spans(p, sdk, original.calls, m.st.current, CountersOf(m.st)).0)
  {
    Preserved(p, sdk, fuel, s, m, m);
  }

  /** The original returns normally and its instrumented form aborts the process. */
  ghost predicate AbortsOnlyWhenRewritten(p: Program, sdk: Sdk, s: Stmt, m: Machine) {
    var original := Eval(p, sdk, 1, s, m);
    var rewritten := Eval(Instrument(p), sdk, 1, s, m);
    && PlainProgram(p) && Plain(s) && Outside(m.st)
    && original.Fin? && original.ctl == Next
    && rewritten.Fin? && rewritten.ctl == Abort
  }

  /**
    The condition on the SDK is exact: whenever a late fault can meet a panicking export,
    the smallest program that calls one instrumented function already shows the difference.
   */
  lemma DoublePanicBreaksPreservation(sdk: Sdk, k: nat, span: Span)
    requires sdk.fault(k) == Late && span.name != "" && !span.error && Panics(sdk.exporter(span))
    ensures exists p: Program, s: Stmt, m: Machine :: AbortsOnlyWhenRewritten(p, sdk, s, m)
  {
    hide Run, Exited, Marked, Entered, Bump;
    var body := Do((u: User) => u);
    var f := Fn(span.name, true, false, body);
    var p: Program := map["f" := f];
    var st := St([], Ctx(span.parent, false), false, false, 1, k, span.id, []);
    var frame := Machine(User(map["arg" := Unit], map[], []), st, 0, Unit);
    var m := Machine(User(map[], map[], []), st, 0, Unit);
    var s := Invoke("f", (u: User) => Unit, "r");
    EnterEffect(sdk, span.name, st);
    assert Eval(p, sdk, 0, body, frame) == Fin(frame, Next, []);
    assert Eval(Instrument(p), sdk, 0, Guarded(span.name, body), frame).ctl == Abort;
    assert Instrument(p)["f"].body == Guarded(span.name, body);
    assert AbortsOnlyWhenRewritten(p, sdk, s, m);
  }

  // ---------------------------------------------------------------------------
  // What the predicted spans look like
  // ---------------------------------------------------------------------------

  /** Calls of instrumented functions outside suppressed scopes. */
  function AttemptCount(p: Program, ts: seq<Tree>, suppressed: bool): nat
    decreases ts, 1
  {
    if ts == [] then 0 else AttemptCountOf(p, ts[0], suppressed) + AttemptCount(p, ts[1..], suppressed)
  }

  function AttemptCountOf(p: Program, t: Tree, suppressed: bool): nat
    decreases t, 0
  {
    if t.Quiet? then AttemptCount(p, t.kids, true)
    else (if Attempts(p, t, Ctx(None, suppressed)) then 1 else 0) + AttemptCount(p, t.kids, suppressed)
  }

  /** Attempts numbered lo..hi on which the SDK panicked before starting a span. */
  function EarlyFaults(sdk: Sdk, lo: nat, hi: nat): nat
    requires lo <= hi
    decreases hi - lo
  {
    if lo == hi then 0 else (if sdk.fault(lo) == Early then 1 else 0) + EarlyFaults(sdk, lo + 1, hi)
  }

  lemma {:induction false} EarlyFaultsSplit(sdk: Sdk, a: nat, b: nat, c: nat)
    requires a <= b <= c
    ensures EarlyFaults(sdk, a, c) == EarlyFaults(sdk, a, b) + EarlyFaults(sdk, b, c)
    decreases b - a
  {
    if a < b { EarlyFaultsSplit(sdk, a + 1, b, c); }
  }

  /** One finished span per call whose enter was not suppressed, early SDK faults apart. */
  lemma {:induction false} OneSpanPerCall(p: Program, sdk: Sdk, ts: seq<Tree>, cx: Ctx, k: Counters)
    ensures var (spans, k1) := Spans(p, sdk, ts, cx, k);
            && k1.starts == k.starts + AttemptCount(p, ts, cx.suppressed)
            && |spans| + EarlyFaults(sdk, k.starts, k1.starts) == AttemptCount(p, ts, cx.suppressed)
    decreases ts, 1
  {
    if ts != [] {
      OneSpanPerCallOf(p, sdk, ts[0], cx, k);
      var k1 := SpansOf(p, sdk, ts[0], cx, k).1;
      OneSpanPerCall(p, sdk, ts[1..], cx, k1);
      EarlyFaultsSplit(sdk, k.starts, k1.starts, Spans(p, sdk, ts[1..], cx, k1).1.starts);
    }
  }

  lemma {:induction false} OneSpanPerCallOf(p: Program, sdk: Sdk, t: Tree, cx: Ctx, k: Counters)
    ensures var (spans, k1) := SpansOf(p, sdk, t, cx, k);
            && k1.starts == k.starts + AttemptCountOf(p, t, cx.suppressed)
            && |spans| + EarlyFaults(sdk, k.starts, k1.starts) == AttemptCountOf(p, t, cx.suppressed)
    decreases t, 0
  {
    if t.Quiet? {
      OneSpanPerCall(p, sdk, t.kids, cx.(suppressed := true), k);
    } else if !Attempts(p, t, cx) {
      OneSpanPerCall(p, sdk, t.kids, cx, k);
    } else {
      var id := k.nextSpan;
      match sdk.fault(k.starts)
      case Early => OneSpanPerCall(p, sdk, t.kids, cx, k.(starts := k.starts + 1));
      case Late => OneSpanPerCall(p, sdk, t.kids, cx, k.(starts := k.starts + 1, nextSpan := id + 1));
      case NoFault =>
        OneSpanPerCall(p, sdk, t.kids, Ctx(Some(id), false), Counters(k.starts + 1, id + 1, AfterTicket(k.next)));
    }
  }

  /** Span j was started before span i and finished after it. Ids number starts, positions number ends. */
  predicate Encloses(spans: seq<Span>, j: int, i: int) {
    0 <= i < j < |spans| && spans[j].id < spans[i].id
  }

  /** The parent is the enclosing span started last, or the outer context when nothing encloses. */
  ghost predicate NearestParent(spans: seq<Span>, i: nat, outer: Option<nat>)
    requires i < |spans|
  {
    if exists j :: Encloses(spans, j, i) then
      exists j :: && Encloses(spans, j, i) && spans[i].parent == Some(spans[j].id)
                  && forall l :: Encloses(spans, l, i) ==> spans[l].id <= spans[j].id
    else spans[i].parent == outer
  }

  ghost predicate WellParented(spans: seq<Span>, lo: nat, hi: nat, outer: Option<nat>) {
    && lo <= hi
    && (forall i :: 0 <= i < |spans| ==> lo <= spans[i].id < hi)
    && (forall i :: 0 <= i < |spans| ==> NearestParent(spans, i, outer))
  }

  lemma WellParentedConcat(a: seq<Span>, b: seq<Span>, lo: nat, mid: nat, hi: nat, outer: Option<nat>)
    requires WellParented(a, lo, mid, outer) && WellParented(b, mid, hi, outer)
    ensures WellParented(a + b, lo, hi, outer)
  {
    forall i | 0 <= i < |a + b| ensures NearestParent(a + b, i, outer) {
      if i < |a| {
        assert forall j :: Encloses(a + b, j, i) <==> Encloses(a, j, i);
        assert NearestParent(a, i, outer);
      } else {
        var n := i - |a|;
        assert NearestParent(b, n, outer);
        assert forall j :: Encloses(b, j, n) ==> Encloses(a + b, j + |a|, i);
        forall j | Encloses(a + b, j, i) ensures Encloses(b, j - |a|, n) {}
      }
    }
  }

  lemma WellParentedEnclosed(inner: seq<Span>, own: Span, hi: nat)
    requires WellParented(inner, own.id + 1, hi, Some(own.id))
    ensures WellParented(inner + [own], own.id, hi, own.parent)
  {
    var all := inner + [own];
    forall i | 0 <= i < |all| ensures NearestParent(all, i, own.parent) {
      if i < |inner| {
        assert NearestParent(inner, i, Some(own.id));
        assert Encloses(all, |inner|, i);
        assert forall j :: Encloses(inner, j, i) ==> Encloses(all, j, i);
        forall j | Encloses(all, j, i) ensures j == |inner| || Encloses(inner, j, i) {}
      }
    }
  }

  /** Every predicted span is parented to its nearest enclosing span, and span ids never repeat. */
  lemma {:induction false} ParentsAreNearest(p: Program, sdk: Sdk, ts: seq<Tree>, cx: Ctx, k: Counters)
    ensures var (spans, k1) := Spans(p, sdk, ts, cx, k);
            WellParented(spans, k.nextSpan, k1.nextSpan, cx.span)
    decreases ts, 1
  {
    if ts != [] {
      ParentsAreNearestOf(p, sdk, ts[0], cx, k);
      var (a, k1) := SpansOf(p, sdk, ts[0], cx, k);
      ParentsAreNearest(p, sdk, ts[1..], cx, k1);
      var (b, k2) := Spans(p, sdk, ts[1..], cx, k1);
      WellParentedConcat(a, b, k.nextSpan, k1.nextSpan, k2.nextSpan, cx.span);
    }
  }

  lemma {:induction false} ParentsAreNearestOf(p: Program, sdk: Sdk, t: Tree, cx: Ctx, k: Counters)
    ensures var (spans, k1) := SpansOf(p, sdk, t, cx, k);
            WellParented(spans, k.nextSpan, k1.nextSpan, cx.span)
    decreases t, 0
  {
    if t.Quiet? {
      ParentsAreNearest(p, sdk, t.kids, cx.(suppressed := true), k);
    } else if !Attempts(p, t, cx) {
      ParentsAreNearest(p, sdk, t.kids, cx, k);
    } else {
      var id := k.nextSpan;
      var name := p[t.fn].name;
      match sdk.fault(k.starts)
      case Early => ParentsAreNearest(p, sdk, t.kids, cx, k.(starts := k.starts + 1));
      case Late =>
        var k0 := k.(starts := k.starts + 1, nextSpan := id + 1);
        ParentsAreNearest(p, sdk, t.kids, cx, k0);
        var (inner, k1) := Spans(p, sdk, t.kids, cx, k0);
        WellParentedConcat([Span(id, name, cx.span, false)], inner, id, id + 1, k1.nextSpan, cx.span);
      case NoFault =>
        var k0 := Counters(k.starts + 1, id + 1, AfterTicket(k.next));
        ParentsAreNearest(p, sdk, t.kids, Ctx(Some(id), false), k0);
        var (inner, k1) := Spans(p, sdk, t.kids, Ctx(Some(id), false), k0);
        WellParentedEnclosed(inner, Span(id, name, cx.span, Failed(p, t) && !sdk.errorFault(id)), k1.nextSpan);
    }
  }

  /** How many enters were attempted and how many spans started. */
  datatype Tally = Tally(starts: nat, nextSpan: nat)

  /**
    Names and error flags of the instrumented calls, each listed when its span ends: with its call,
    or before the calls inside it when the SDK panics after starting the span. A call has no label
    when the SDK panics before that. It is in error exactly when a closure-wrapped body returned Err
    and the SDK could record it.
   */
  function Labels(p: Program, sdk: Sdk, ts: seq<Tree>, suppressed: bool, k: Tally): (seq<(string, bool)>, Tally)
    decreases ts, 1
  {
    if ts == [] then ([], k)
    else
      var (a, k1) := LabelsOf(p, sdk, ts[0], suppressed, k);
      var (b, k2) := Labels(p, sdk, ts[1..], suppressed, k1);
      (a + b, k2)
  }

  function LabelsOf(p: Program, sdk: Sdk, t: Tree, suppressed: bool, k: Tally): (seq<(string, bool)>, Tally)
    decreases t, 0
  {
    if t.Quiet? then Labels(p, sdk, t.kids, true, k)
    else if !Attempts(p, t, Ctx(None, suppressed)) then Labels(p, sdk, t.kids, suppressed, k)
    else
      var fault := sdk.fault(k.starts);
      var inside := Tally(k.starts + 1, if fault == Early then k.nextSpan else k.nextSpan + 1);
      var (inner, k1) := Labels(p, sdk, t.kids, suppressed, inside);
      var own := [(p[t.fn].name, fault == NoFault && Failed(p, t) && !sdk.errorFault(k.nextSpan))];
      (if fault == Early then inner else if fault == Late then own + inner else inner + own, k1)
  }

  function LabelsOfSpans(spans: seq<Span>): (r: seq<(string, bool)>)
    ensures |r| == |spans|
  {
    seq(|spans|, i requires 0 <= i < |spans| => (spans[i].name, spans[i].error))
  }

  function TallyOf(k: Counters): Tally { Tally(k.starts, k.nextSpan) }

  lemma LabelsConcat(a: seq<Span>, b: seq<Span>)
    ensures LabelsOfSpans(a + b) == LabelsOfSpans(a) + LabelsOfSpans(b)
  {
  }

  /** Labels leave out only what a span's identity adds: the finished spans carry them, whatever the SDK does. */
  lemma {:induction false} SpansLabelCalls(p: Program, sdk: Sdk, ts: seq<Tree>, cx: Ctx, k: Counters)
    ensures var (spans, k1) := Spans(p, sdk, ts, cx, k);
            Labels(p, sdk, ts, cx.suppressed, TallyOf(k)) == (LabelsOfSpans(spans), TallyOf(k1))
    decreases ts, 1
  {
    hide SpansOf, LabelsOf, LabelsOfSpans;
    if ts == [] {
    } else {
      SpansLabelCallsOf(p, sdk, ts[0], cx, k);
      var (a, k1) := SpansOf(p, sdk, ts[0], cx, k);
      SpansLabelCalls(p, sdk, ts[1..], cx, k1);
      LabelsConcat(a, Spans(p, sdk, ts[1..], cx, k1).0);
    }
  }

  lemma {:induction false} SpansLabelCallsOf(p: Program, sdk: Sdk, t: Tree, cx: Ctx, k: Counters)
    ensures var (spans, k1) := SpansOf(p, sdk, t, cx, k);
            LabelsOf(p, sdk, t, cx.suppressed, TallyOf(k)) == (LabelsOfSpans(spans), TallyOf(k1))
    decreases t, 0
  {
    hide Spans, Labels, Failed;
    if t.Quiet? {
      SpansLabelCalls(p, sdk, t.kids, cx.(suppressed := true), k);
    } else if !Attempts(p, t, cx) {
      SpansLabelCalls(p, sdk, t.kids, cx, k);
    } else {
      var id := k.nextSpan;
      match sdk.fault(k.starts)
      case Early => SpansLabelCalls(p, sdk, t.kids, cx, k.(starts := k.starts + 1));
      case Late =>
        var k0 := k.(starts := k.starts + 1, nextSpan := id + 1);
        SpansLabelCalls(p, sdk, t.kids, cx, k0);
        var own := Span(id, p[t.fn].name, cx.span, false);
        LabelsConcat([own], Spans(p, sdk, t.kids, cx, k0).0);
        assert LabelsOfSpans([own]) == [(own.name, own.error)];
      case NoFault =>
        var k0 := Counters(k.starts + 1, id + 1, AfterTicket(k.next));
        SpansLabelCalls(p, sdk, t.kids, Ctx(Some(id), false), k0);
        var own := Span(id, p[t.fn].name, cx.span, Failed(p, t) && !sdk.errorFault(id));
        LabelsConcat(Spans(p, sdk, t.kids, Ctx(Some(id), false), k0).0, [own]);
        assert LabelsOfSpans([own]) == [(own.name, own.error)];
    }
  }

  ghost predicate NoFaults(sdk: Sdk) {
    (forall k :: sdk.fault(k) == NoFault) && (forall id :: !sdk.errorFault(id))
  }

  /** The calls themselves, each listed when it ends. */
  function CallLabels(p: Program, ts: seq<Tree>, suppressed: bool): seq<(string, bool)>
    decreases ts, 1
  {
    if ts == [] then [] else CallLabelsOf(p, ts[0], suppressed) + CallLabels(p, ts[1..], suppressed)
  }

  function CallLabelsOf(p: Program, t: Tree, suppressed: bool): seq<(string, bool)>
    decreases t, 0
  {
    if t.Quiet? then CallLabels(p, t.kids, true)
    else CallLabels(p, t.kids, suppressed)
         + if Attempts(p, t, Ctx(None, suppressed)) then [(p[t.fn].name, Failed(p, t))] else []
  }

  /**
    With a working SDK the finished spans name the calls, one per call in order of ending, and are in
    error exactly when a closure-wrapped body returned Err.
   */
  lemma SpansNameCalls(p: Program, sdk: Sdk, ts: seq<Tree>, cx: Ctx, k: Counters)
    requires NoFaults(sdk)
    ensures LabelsOfSpans(Spans(p, sdk, ts, cx, k).0) == CallLabels(p, ts, cx.suppressed)
  {
    hide Spans, Labels, CallLabels, NoFaults;
    SpansLabelCalls(p, sdk, ts, cx, k);
    LabelsAreCalls(p, sdk, ts, cx.suppressed, TallyOf(k));
  }

  lemma {:induction false} LabelsAreCalls(p: Program, sdk: Sdk, ts: seq<Tree>, suppressed: bool, k: Tally)
    requires NoFaults(sdk)
    ensures Labels(p, sdk, ts, suppressed, k).0 == CallLabels(p, ts, suppressed)
    decreases ts, 1
  {
    if ts != [] {
      LabelsAreCallsOf(p, sdk, ts[0], suppressed, k);
      LabelsAreCalls(p, sdk, ts[1..], suppressed, LabelsOf(p, sdk, ts[0], suppressed, k).1);
    }
  }

  lemma {:induction false} LabelsAreCallsOf(p: Program, sdk: Sdk, t: Tree, suppressed: bool, k: Tally)
    requires NoFaults(sdk)
    ensures LabelsOf(p, sdk, t, suppressed, k).0 == CallLabelsOf(p, t, suppressed)
    decreases t, 0
  {
    hide Failed;
    if t.Quiet? {
      LabelsAreCalls(p, sdk, t.kids, true, k);
    } else if !Attempts(p, t, Ctx(None, suppressed)) {
      LabelsAreCalls(p, sdk, t.kids, suppressed, k);
    } else {
      LabelsAreCalls(p, sdk, t.kids, suppressed, Tally(k.starts + 1, k.nextSpan + 1));
    }
  }
}
