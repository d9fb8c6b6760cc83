/**
  What a program means before it is rewritten, and that its rewritten form means the same
  (cargo-instrument/src/transform.rs:936-1071).
 */
module UserCode {
  import opened Basics
  import opened Shim
  import opened Trampoline

  // The meaning is given without frames, shim or SDK: what a statement does to locals, memory and output,
  // how it ends, and which calls it makes.

  /** Statements that run after others which made these calls. */
  function Following(calls: seq<Tree>, o: Observation): Observation {
    if o.Diverges? then o else o.(calls := calls + o.calls)
  }

  predicate Stops(o: Observation) { o.Diverges? || o.ctl != Next }

  function Meaning(p: Program, fuel: nat, s: Stmt, u: User): Observation
    decreases fuel, s
  {
    match s
    case Do(op) => Ends(Next, [], op(u))
    case Return(value) => Ends(Returned(value(u)), [], u)
    case Panic => Ends(Unwind, [], u)
    case Seq(first, second) =>
      var a := Meaning(p, fuel, first, u);
      if Stops(a) then a else Following(a.calls, Meaning(p, fuel, second, a.user))
    case If(cond, thn, els) => Meaning(p, fuel, if cond(u) then thn else els, u)
    case While(cond, body) =>
      if !cond(u) then Ends(Next, [], u)
      else if fuel == 0 then Diverges
      else
        var a := Meaning(p, fuel - 1, body, u);
        if Stops(a) then a else Following(a.calls, Meaning(p, fuel - 1, s, a.user))
    case Invoke(callee, arg, dest) =>
      if callee !in p then Ends(Next, [], u)
      else if fuel == 0 then Diverges
      else Called(u, callee, dest, Meaning(p, fuel - 1, p[callee].body, User(map["arg" := arg(u)], u.heap, u.out)))
    case CatchUnwind(body) =>
      var a := Meaning(p, fuel, body, u);
      if a.Ends? && a.ctl == Unwind then Ends(Next, a.calls, a.user) else a
    case Defer(cleanup, body) =>
      var a := Meaning(p, fuel, body, u);
      if a.Diverges? || a.ctl == Abort then a
      else
        var b := Meaning(p, fuel, cleanup, a.user);
        if b.Diverges? then b else Ends(AfterCleanup(a.ctl, b.ctl), a.calls + b.calls, b.user)
    case Suppressed(body) =>
      var a := Meaning(p, fuel, body, u);
      if a.Diverges? then a else Ends(a.ctl, [Quiet(a.calls)], a.user)
    case _ => Diverges
  }

  /** The caller keeps its locals and gets the value; a panic goes on in the caller. */
  function Called(u: User, callee: string, dest: string, inner: Observation): Observation {
    if inner.Diverges? then Diverges
    else
      var heap, out := inner.user.heap, inner.user.out;
      match inner.ctl
      case Next => Ends(Next, [Node(callee, Finished(Unit), inner.calls)], User(u.locals[dest := Unit], heap, out))
      case Returned(v) => Ends(Next, [Node(callee, Finished(v), inner.calls)], User(u.locals[dest := v], heap, out))
      case Unwind => Ends(Unwind, [Node(callee, Unwound, inner.calls)], User(u.locals, heap, out))
      case Abort => Ends(Abort, [Node(callee, Aborted, inner.calls)], User(u.locals, heap, out))
  }

  /** A destructor that panics replaces a return by a panic, and a second panic ends the process. */
  function AfterCleanup(body: Ctl, cleanup: Ctl): Ctl {
    match cleanup
    case Abort => Abort
    case Unwind => if body == Unwind then Abort else Unwind
    case Next => body
    case Returned(_) => body
  }

  /** Some construct of the emitter occurs. */
  predicate Emitted(s: Stmt) {
    match s
    case Guarded(_, _) => true
    case BindClosure(_) => true
    case MarkIfErr => true
    case ReturnBound => true
    case Seq(a, b) => Emitted(a) || Emitted(b)
    case If(_, a, b) => Emitted(a) || Emitted(b)
    case While(_, b) => Emitted(b)
    case CatchUnwind(b) => Emitted(b)
    case Defer(c, b) => Emitted(c) || Emitted(b)
    case Suppressed(b) => Emitted(b)
    case _ => false
  }

  /** The theorems are about all code in which none does. */
  lemma {:induction false} PlainMeans(s: Stmt)
    ensures Plain(s) <==> !Emitted(s)
  {
    match s
    case Seq(a, b) => PlainMeans(a); PlainMeans(b);
    case If(_, a, b) => PlainMeans(a); PlainMeans(b);
    case While(_, b) => PlainMeans(b);
    case CatchUnwind(b) => PlainMeans(b);
    case Defer(c, b) => PlainMeans(c); PlainMeans(b);
    case Suppressed(b) => PlainMeans(b);
    case _ =>
  }

  // ---------------------------------------------------------------------------
  // User code does not touch the shim
  // ---------------------------------------------------------------------------

  /** The run shows the meaning, and leaves everything else of the frame as it was. */
  ghost predicate Means(r: Result, o: Observation, m: Machine) {
    Observed(r) == o && (r.Fin? ==> r.m == m.(user := r.m.user))
  }

  lemma {:induction false} UserCodeMeans(p: Program, sdk: Sdk, fuel: nat, s: Stmt, m: Machine)
    requires PlainProgram(p) && Plain(s)
    ensures Means(Eval(p, sdk, fuel, s, m), Meaning(p, fuel, s, m.user), m)
    decreases fuel, s, 1
  {
    hide PlainProgram;
    match s
    case Do(_) =>
    case Return(_) =>
    case Panic =>
    case Seq(first, second) => SeqMeans(p, sdk, fuel, s, m);
    case If(cond, thn, els) => UserCodeMeans(p, sdk, fuel, if cond(m.user) then thn else els, m);
    case While(cond, body) => WhileMeans(p, sdk, fuel, s, m);
    case Invoke(callee, arg, dest) => InvokeMeans(p, sdk, fuel, s, m);
    case CatchUnwind(body) => UserCodeMeans(p, sdk, fuel, body, m);
    case Defer(cleanup, body) => DeferMeans(p, sdk, fuel, s, m);
    case Suppressed(body) =>
      UserCodeMeans(p, sdk, fuel, body, m.(st := m.st.(current := m.st.current.(suppressed := true))));
  }

  lemma {:induction false} SeqMeans(p: Program, sdk: Sdk, fuel: nat, s: Stmt, m: Machine)
    requires PlainProgram(p) && Plain(s) && s.Seq?
    ensures Means(Eval(p, sdk, fuel, s, m), Meaning(p, fuel, s, m.user), m)
    decreases fuel, s, 0
  {
    hide PlainProgram;
    var a := Eval(p, sdk, fuel, s.first, m);
    UserCodeMeans(p, sdk, fuel, s.first, m);
    if a.Fin? && a.ctl == Next { UserCodeMeans(p, sdk, fuel, s.second, a.m); }
  }

  lemma {:induction false} WhileMeans(p: Program, sdk: Sdk, fuel: nat, s: Stmt, m: Machine)
    requires PlainProgram(p) && Plain(s) && s.While?
    ensures Means(Eval(p, sdk, fuel, s, m), Meaning(p, fuel, s, m.user), m)
    decreases fuel, s, 0
  {
    hide PlainProgram;
    if s.cond(m.user) && fuel > 0 {
      var a := Eval(p, sdk, fuel - 1, s.body, m);
      UserCodeMeans(p, sdk, fuel - 1, s.body, m);
      if a.Fin? && a.ctl == Next { UserCodeMeans(p, sdk, fuel - 1, s, a.m); }
    }
  }

  lemma {:induction false} InvokeMeans(p: Program, sdk: Sdk, fuel: nat, s: Stmt, m: Machine)
    requires PlainProgram(p) && Plain(s) && s.Invoke?
    ensures Means(Eval(p, sdk, fuel, s, m), Meaning(p, fuel, s, m.user), m)
    decreases fuel, s, 0
  {
    if s.callee in p && fuel > 0 {
      var frame := Machine(User(map["arg" := s.arg(m.user)], m.user.heap, m.user.out), m.st, 0, Unit);
      UserCodeMeans(p, sdk, fuel - 1, p[s.callee].body, frame);
    }
  }

  lemma {:induction false} DeferMeans(p: Program, sdk: Sdk, fuel: nat, s: Stmt, m: Machine)
    requires PlainProgram(p) && Plain(s) && s.Defer?
    ensures Means(Eval(p, sdk, fuel, s, m), Meaning(p, fuel, s, m.user), m)
    decreases fuel, s, 0
  {
    hide PlainProgram;
    var a := Eval(p, sdk, fuel, s.body, m);
    UserCodeMeans(p, sdk, fuel, s.body, m);
    if a.Fin? && a.ctl != Abort { UserCodeMeans(p, sdk, fuel, s.cleanup, a.m); }
  }

  /** The rewritten program ends as the program means, with its calls, memory and output, or diverges with it. */
  lemma RewrittenMeansTheSame(p: Program, sdk: Sdk, fuel: nat, s: Stmt, m: Machine)
    requires Ready(p, sdk, m) && Plain(s)
    ensures Observed(Eval(Instrument(p), sdk, fuel, s, m)) == Meaning(p, fuel, s, m.user)
  {
    hide Eval, Meaning;
    InstrumentationPreservesMeaning(p, sdk, fuel, s, m);
    UserCodeMeans(p, sdk, fuel, s, m);
  }
}
