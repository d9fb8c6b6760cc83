/**
  The two views of the shim agree: what one thread does in `Shim`, exporter and all, is a run of
  the atomic steps of `ShimThreads` on that thread (otel-shim/src/lib.rs:134-302).
 */
module ShimRefinement {
  import opened Basics
  import S = Shim
  import T = ShimThreads

  /** A stack as the interleaved model keeps it. */
  function Slots(stack: seq<S.Entry>): (r: seq<T.Slot>)
    ensures |r| == |stack| && forall i :: 0 <= i < |r| ==> r[i] == T.Slot(stack[i].handle, stack[i].span.error)
  {
    seq(|stack|, i requires 0 <= i < |stack| => T.Slot(stack[i].handle, stack[i].span.error))
  }

  /** What both models say of one thread. Outside the shim no call is under way. */
  datatype View = View(next: nat, stack: seq<T.Slot>, inShim: bool, underWay: bool)

  function ViewOf(st: S.St): View { View(st.next, Slots(st.stack), st.inShim, st.inShim) }

  function ThreadView(w: T.World, t: T.Tid): View
    requires t in w.threads
  {
    var th := w.threads[t];
    View(w.next, th.stack, th.inShim, th.inShim || th.pc != T.Outside)
  }

  /** Thread t of w is in state st. */
  ghost predicate Shows(st: S.St, w: T.World, t: T.Tid) {
    t in w.threads && ThreadView(w, t) == ViewOf(st)
  }

  lemma RunNext(w: T.World, es: seq<T.Event>, e: T.Event)
    ensures T.Run(w, es + [e]) == T.Step(T.Run(w, es), e)
  {
    hide T.Step;
    assert (es + [e])[..|es|] == es;
  }

  lemma {:induction false} RunConcat(w: T.World, a: seq<T.Event>, b: seq<T.Event>)
    ensures T.Run(w, a + b) == T.Run(T.Run(w, a), b)
    decreases |b|
  {
    hide T.Step;
    if b == [] {
      assert a + b == a;
    } else {
      RunConcat(w, a, b[..|b| - 1]);
      assert (a + b)[..|a + b| - 1] == a + b[..|b| - 1] && (a + b)[|a + b| - 1] == b[|b| - 1];
    }
  }

  lemma Run1(w: T.World, a: T.Event)
    ensures T.Run(w, [a]) == T.Step(w, a)
  {
    hide T.Step;
    assert [a][..0] == [];
  }

  lemma Run2(w: T.World, a: T.Event, b: T.Event)
    ensures T.Run(w, [a, b]) == T.Step(T.Step(w, a), b)
  {
    hide T.Step;
    Run1(w, a);
    RunNext(w, [a], b);
    assert [a] + [b] == [a, b];
  }

  /** The steps of one enter. */
  function EnterSteps(sdk: S.Sdk, name: string, st: S.St, t: T.Tid): seq<T.Event> {
    if S.Declines(name, st) then [T.Begin(t, name == "" || st.current.suppressed)]
    else if sdk.fault(st.starts) != S.NoFault then [T.Begin(t, false), T.Fail(t)]
    else if st.next == 0 then [T.Begin(t, false), T.Draw(t), T.Draw(t), T.Push(t)]
    else [T.Begin(t, false), T.Draw(t), T.Push(t)]
  }

  function ExitSteps(handle: nat, st: S.St, t: T.Tid): seq<T.Event> {
    if handle == 0 || st.inShim then [T.Exit(t, handle)] else [T.Exit(t, handle), T.Exported(t)]
  }

  /** Whether the SDK panics when this span's status is set. */
  function ErrorFault(sdk: S.Sdk, handle: nat, st: S.St): bool {
    var i := FindLast(st.stack, S.HandleOf, handle);
    i >= 0 && sdk.errorFault(st.stack[i].span.id)
  }

  lemma DeclinedEnterShows(sdk: S.Sdk, name: string, st: S.St, w: T.World, t: T.Tid)
    requires Shows(st, w, t) && (S.Declines(name, st) || sdk.fault(st.starts) != S.NoFault)
    ensures S.Entered(sdk, name, st).0 == 0
    ensures Shows(S.Entered(sdk, name, st).1, T.Run(w, EnterSteps(sdk, name, st, t)), t)
    ensures T.Run(w, EnterSteps(sdk, name, st, t)).log == w.log
  {
    hide S.Run, T.Run, S.Exited, S.Panics;
    S.EnterEffect(sdk, name, st);
    if S.Declines(name, st) {
      Run1(w, T.Begin(t, name == "" || st.current.suppressed));
    } else {
      Run2(w, T.Begin(t, false), T.Fail(t));
    }
  }

  /** Drawing a ticket, with the retry after the null handle. */
  lemma Draws(w: T.World, t: T.Tid)
    requires t in w.threads && w.threads[t].pc.Started?
    ensures var one := T.Step(w, T.Draw(t));
            var v := if w.next == 0 then T.Step(one, T.Draw(t)) else one;
            && t in v.threads && v.threads[t] == w.threads[t].(pc := T.Holding(S.Ticket(w.next)))
            && v.next == S.AfterTicket(w.next) && v.log == w.log + [T.Issue(t, S.Ticket(w.next))]
  {
  }

  lemma Begins(w: T.World, t: T.Tid)
    requires t in w.threads && !w.threads[t].inShim
    ensures var v := T.Step(w, T.Begin(t, false));
            && t in v.threads && v.threads[t] == w.threads[t].(inShim := true, pc := T.Started)
            && v.next == w.next && v.log == w.log
  {
  }

  lemma Pushes(w: T.World, t: T.Tid)
    requires t in w.threads && w.threads[t].pc.Holding?
    ensures var v := T.Step(w, T.Push(t));
            && t in v.threads
            && v.threads[t] == T.Thread(w.threads[t].stack + [T.Slot(w.threads[t].pc.handle, false)], false, T.Outside)
            && v.next == w.next && v.log == w.log
  {
  }

  lemma EnterRun(w: T.World, t: T.Tid)
    ensures T.Run(w, [T.Begin(t, false), T.Draw(t), T.Push(t)])
            == T.Step(T.Step(T.Step(w, T.Begin(t, false)), T.Draw(t)), T.Push(t))
    ensures T.Run(w, [T.Begin(t, false), T.Draw(t), T.Draw(t), T.Push(t)])
            == T.Step(T.Step(T.Step(T.Step(w, T.Begin(t, false)), T.Draw(t)), T.Draw(t)), T.Push(t))
  {
    hide T.Step, T.Run;
    var es := [T.Begin(t, false), T.Draw(t)];
    Run2(w, T.Begin(t, false), T.Draw(t));
    RunNext(w, es, T.Push(t));
    RunNext(w, es, T.Draw(t));
    RunNext(w, es + [T.Draw(t)], T.Push(t));
    assert es + [T.Push(t)] == [T.Begin(t, false), T.Draw(t), T.Push(t)];
    assert es + [T.Draw(t)] + [T.Push(t)] == [T.Begin(t, false), T.Draw(t), T.Draw(t), T.Push(t)];
  }

  lemma {:induction false} PushedEnterShows(sdk: S.Sdk, name: string, st: S.St, w: T.World, t: T.Tid)
    requires Shows(st, w, t) && !S.Declines(name, st) && sdk.fault(st.starts) == S.NoFault
    ensures var (h, entered) := S.Entered(sdk, name, st);
            var v := T.Run(w, EnterSteps(sdk, name, st, t));
            Shows(entered, v, t) && v.log == w.log + [T.Issue(t, h)]
  {
    hide S.Run, T.Run, T.Step, S.Exited, S.Panics;
    S.EnterEffect(sdk, name, st);
    EnterRun(w, t);
    Begins(w, t);
    var begun := T.Step(w, T.Begin(t, false));
    Draws(begun, t);
    var one := T.Step(begun, T.Draw(t));
    var drawn := if begun.next == 0 then T.Step(one, T.Draw(t)) else one;
    Pushes(drawn, t);
    var entered := S.Entered(sdk, name, st).1;
    assert Slots(entered.stack) == Slots(st.stack) + [T.Slot(S.Ticket(st.next), false)];
  }

  /** An enter is Begin, Draw (twice around the null handle) and Push, or Begin and Fail, or one refused Begin. */
  lemma EnterShows(sdk: S.Sdk, name: string, st: S.St, w: T.World, t: T.Tid)
    requires Shows(st, w, t)
    ensures var (h, entered) := S.Entered(sdk, name, st);
            var v := T.Run(w, EnterSteps(sdk, name, st, t));
            Shows(entered, v, t) && v.log == if h == 0 then w.log else w.log + [T.Issue(t, h)]
  {
    hide S.Run, T.Run, T.Step, S.Exited, S.Panics, EnterSteps, Shows;
    if S.Declines(name, st) || sdk.fault(st.starts) != S.NoFault {
      DeclinedEnterShows(sdk, name, st, w, t);
    } else {
      S.EnterEffect(sdk, name, st);
      PushedEnterShows(sdk, name, st, w, t);
    }
  }

  /** An exit is Exit and the end of the export, whatever the export does in between. */
  lemma ExitShows(sdk: S.Sdk, handle: nat, st: S.St, w: T.World, t: T.Tid)
    requires Shows(st, w, t)
    ensures Shows(S.Exited(sdk, handle, st), T.Run(w, ExitSteps(handle, st, t)), t)
    ensures T.Run(w, ExitSteps(handle, st, t)).log == w.log
  {
    hide S.Run, T.Run, S.Exited, S.Entered;
    S.ExitEffect(sdk, handle, st);
    if handle == 0 || st.inShim {
      Run1(w, T.Exit(t, handle));
    } else {
      Run2(w, T.Exit(t, handle), T.Exported(t));
      assert st.stack != [] ==> Slots(st.stack[..|st.stack| - 1]) == Slots(st.stack)[..|st.stack| - 1];
    }
  }

  /** Marking an error is one step. */
  lemma MarkShows(sdk: S.Sdk, handle: nat, st: S.St, w: T.World, t: T.Tid)
    requires Shows(st, w, t)
    ensures Shows(S.Marked(sdk, handle, st), T.Run(w, [T.SetError(t, handle, ErrorFault(sdk, handle, st))]), t)
    ensures T.Run(w, [T.SetError(t, handle, ErrorFault(sdk, handle, st))]).log == w.log
  {
    hide S.Run, T.Run;
    Run1(w, T.SetError(t, handle, ErrorFault(sdk, handle, st)));
    var marked := S.Marked(sdk, handle, st);
    var i := FindLast(st.stack, S.HandleOf, handle);
    if i >= 0 && handle != 0 && !st.inShim && !ErrorFault(sdk, handle, st) {
      assert Slots(marked.stack) == Slots(st.stack)[i := T.Slot(handle, true)];
    }
  }

  /** The steps of a piece of user code. */
  function CodeSteps(sdk: S.Sdk, c: S.Code, st: S.St, t: T.Tid): seq<T.Event>
    decreases c
  {
    match c
    case Stop => []
    case Boom => []
    case RawExit(h, rest) => ExitSteps(h, st, t) + CodeSteps(sdk, rest, S.Exited(sdk, h, st), t)
    case RawSetError(h, rest) =>
      [T.SetError(t, h, ErrorFault(sdk, h, st))] + CodeSteps(sdk, rest, S.Marked(sdk, h, st), t)
    case Catch(body, rest) => CodeSteps(sdk, body, st, t) + CodeSteps(sdk, rest, S.Run(sdk, body, st).st, t)
    case Call(name, wraps, fails, body, rest) =>
      var (h, st1) := S.Entered(sdk, name, st);
      var b := S.Run(sdk, body, st1);
      var marks := Marks(c, h, b);
      EnterSteps(sdk, name, st, t) + CodeSteps(sdk, body, st1, t) + LeaveSteps(sdk, h, marks, b.st, t)
      + (if b.panicked then [] else CodeSteps(sdk, rest, LeftBy(sdk, h, marks, b.st), t))
  }

  /** The guard's part after the body: the error mark and the exit. */
  function LeaveSteps(sdk: S.Sdk, h: nat, marks: bool, st: S.St, t: T.Tid): seq<T.Event> {
    var marked := if marks then S.Marked(sdk, h, st) else st;
    (if marks then [T.SetError(t, h, ErrorFault(sdk, h, st))] else [])
    + (if h != 0 then ExitSteps(h, marked, t) else [])
  }

  /** The state a call leaves when its guard is dropped. */
  function LeftBy(sdk: S.Sdk, h: nat, marks: bool, st: S.St): S.St {
    var marked := if marks then S.Marked(sdk, h, st) else st;
    if h != 0 then S.Exited(sdk, h, marked) else marked
  }

  /** The issues of the nonzero handles an execution got. */
  function Issues(t: T.Tid, handles: seq<nat>): seq<T.Issue> {
    if handles == [] then [] else IssueOf(t, handles[0]) + Issues(t, handles[1..])
  }

  function IssueOf(t: T.Tid, h: nat): seq<T.Issue> { if h == 0 then [] else [T.Issue(t, h)] }

  lemma {:induction false} IssuesConcat(t: T.Tid, a: seq<nat>, b: seq<nat>)
    ensures Issues(t, a + b) == Issues(t, a) + Issues(t, b)
  {
    hide IssueOf;
    if a == [] {
      assert a + b == b;
    } else {
      IssuesConcat(t, a[1..], b);
      assert (a + b)[1..] == a[1..] + b && (a + b)[0] == a[0];
      ConcatAssociates(IssueOf(t, a[0]), Issues(t, a[1..]), Issues(t, b));
    }
  }

  /** v is what w becomes when the thread reaches st having got these handles. */
  ghost predicate Becomes(w: T.World, v: T.World, t: T.Tid, st: S.St, handles: seq<nat>) {
    Shows(st, v, t) && v.log == w.log + Issues(t, handles)
  }

  lemma BecomesNext(u: T.World, v: T.World, w: T.World, t: T.Tid, st: S.St, next: S.St, a: seq<nat>, b: seq<nat>)
    requires Becomes(u, v, t, st, a) && Becomes(v, w, t, next, b)
    ensures Becomes(u, w, t, next, a + b)
  {
    hide Shows, Issues;
    IssuesConcat(t, a, b);
    ConcatAssociates(u.log, Issues(t, a), Issues(t, b));
  }

  lemma NoHandles(w: T.World, v: T.World, t: T.Tid, st: S.St)
    requires Shows(st, v, t) && v.log == w.log
    ensures Becomes(w, v, t, st, [])
  {
    hide Shows;
  }

  lemma OneHandle(w: T.World, v: T.World, t: T.Tid, st: S.St, h: nat)
    requires Shows(st, v, t) && v.log == if h == 0 then w.log else w.log + [T.Issue(t, h)]
    ensures Becomes(w, v, t, st, [h])
  {
    hide Shows;
    assert Issues(t, [h]) == if h == 0 then [] else [T.Issue(t, h)];
  }

  /**
    Whatever instrumented user code does on a thread is a run of the interleaved model: it ends in
    the same stack, flag and counter, and draws exactly the handles its enters get, in order.
   */
  lemma {:induction false} CodeIsRun(sdk: S.Sdk, c: S.Code, st: S.St, w: T.World, t: T.Tid)
    requires Shows(st, w, t)
    ensures var r := S.Run(sdk, c, st); Becomes(w, T.Run(w, CodeSteps(sdk, c, st, t)), t, r.st, r.handles)
    decreases c, 1
  {
    hide T.Step, T.Run, Shows, Becomes, ExitSteps, EnterSteps, ErrorFault, S.Entered, S.Exited, S.Marked;
    match c
    case Stop => EmptyRun(w); NoHandles(w, w, t, st);
    case Boom => EmptyRun(w); NoHandles(w, w, t, st);
    case RawExit(h, rest) =>
      var v := T.Run(w, ExitSteps(h, st, t));
      ExitShows(sdk, h, st, w, t);
      NoHandles(w, v, t, S.Exited(sdk, h, st));
      CodeIsRun(sdk, rest, S.Exited(sdk, h, st), v, t);
      RunConcat(w, ExitSteps(h, st, t), CodeSteps(sdk, rest, S.Exited(sdk, h, st), t));
      Then(sdk, rest, w, v, t, S.Exited(sdk, h, st), []);
    case RawSetError(h, rest) =>
      var es := [T.SetError(t, h, ErrorFault(sdk, h, st))];
      var v := T.Run(w, es);
      MarkShows(sdk, h, st, w, t);
      NoHandles(w, v, t, S.Marked(sdk, h, st));
      CodeIsRun(sdk, rest, S.Marked(sdk, h, st), v, t);
      RunConcat(w, es, CodeSteps(sdk, rest, S.Marked(sdk, h, st), t));
      Then(sdk, rest, w, v, t, S.Marked(sdk, h, st), []);
    case Catch(body, rest) =>
      var b := S.Run(sdk, body, st);
      var v := T.Run(w, CodeSteps(sdk, body, st, t));
      CodeIsRun(sdk, body, st, w, t);
      ShowsAfter(w, v, t, b.st, b.handles);
      CodeIsRun(sdk, rest, b.st, v, t);
      RunConcat(w, CodeSteps(sdk, body, st, t), CodeSteps(sdk, rest, b.st, t));
      Then(sdk, rest, w, v, t, b.st, b.handles);
    case Call(_, _, _, _, _) => CallIsRun(sdk, c, st, w, t);
  }

  lemma EmptyRun(w: T.World)
    ensures T.Run(w, []) == w
  {
  }

  lemma ShowsAfter(w: T.World, v: T.World, t: T.Tid, st: S.St, handles: seq<nat>)
    requires Becomes(w, v, t, st, handles)
    ensures Shows(st, v, t)
  {
  }

  /** Code that runs after something else. */
  lemma Then(sdk: S.Sdk, c: S.Code, u: T.World, v: T.World, t: T.Tid, st: S.St, before: seq<nat>)
    requires Becomes(u, v, t, st, before)
    requires var r := S.Run(sdk, c, st); Becomes(v, T.Run(v, CodeSteps(sdk, c, st, t)), t, r.st, r.handles)
    ensures var r := S.Run(sdk, c, st); Becomes(u, T.Run(v, CodeSteps(sdk, c, st, t)), t, r.st, before + r.handles)
    ensures before == [] ==> before + S.Run(sdk, c, st).handles == S.Run(sdk, c, st).handles
  {
    hide Becomes, S.Run, CodeSteps, T.Run;
    var r := S.Run(sdk, c, st);
    BecomesNext(u, v, T.Run(v, CodeSteps(sdk, c, st, t)), t, st, r.st, before, r.handles);
  }

  lemma LeaveIsRun(sdk: S.Sdk, h: nat, marks: bool, st: S.St, w: T.World, t: T.Tid)
    requires Shows(st, w, t) && (marks ==> h != 0)
    ensures var v := T.Run(w, LeaveSteps(sdk, h, marks, st, t));
            Shows(LeftBy(sdk, h, marks, st), v, t) && v.log == w.log
  {
    hide T.Step, T.Run, Shows, ExitSteps, ErrorFault, S.Exited, S.Marked;
    var marked := if marks then S.Marked(sdk, h, st) else st;
    var marking := if marks then [T.SetError(t, h, ErrorFault(sdk, h, st))] else [];
    var v := T.Run(w, marking);
    EmptyRun(w);
    EmptyRun(v);
    if marks { MarkShows(sdk, h, st, w, t); }
    if h != 0 { ExitShows(sdk, h, marked, v, t); }
    RunConcat(w, marking, if h != 0 then ExitSteps(h, marked, t) else []);
  }

  lemma {:induction false} CallIsRun(sdk: S.Sdk, c: S.Code, st: S.St, w: T.World, t: T.Tid)
    requires Shows(st, w, t) && c.Call?
    ensures var r := S.Run(sdk, c, st); Becomes(w, T.Run(w, CodeSteps(sdk, c, st, t)), t, r.st, r.handles)
    decreases c, 0
  {
    hide T.Step, T.Run, Shows, Becomes, ExitSteps, EnterSteps, ErrorFault, S.Entered, S.Exited, S.Marked;
    var (h, st1) := S.Entered(sdk, c.name, st);
    var entering := EnterSteps(sdk, c.name, st, t);
    var w1 := T.Run(w, entering);
    EnterShows(sdk, c.name, st, w, t);
    OneHandle(w, w1, t, st1, h);
    var b := S.Run(sdk, c.body, st1);
    var inside := CodeSteps(sdk, c.body, st1, t);
    var w2 := T.Run(w1, inside);
    CodeIsRun(sdk, c.body, st1, w1, t);
    ShowsAfter(w1, w2, t, b.st, b.handles);
    BecomesNext(w, w1, w2, t, st1, b.st, [h], b.handles);
    var marks := Marks(c, h, b);
    var left := LeftBy(sdk, h, marks, b.st);
    var leaving := LeaveSteps(sdk, h, marks, b.st, t);
    var w3 := T.Run(w2, leaving);
    LeaveIsRun(sdk, h, marks, b.st, w2, t);
    NoHandles(w2, w3, t, left);
    BecomesNext(w, w2, w3, t, b.st, left, [h] + b.handles, []);
    assert ([h] + b.handles) + [] == [h] + b.handles;
    RunThree(w, entering, inside, leaving);
    Finish(sdk, c, st, w, w3, t, h, b, entering + inside + leaving);
  }

  lemma {:induction false} RunThree(w: T.World, a: seq<T.Event>, b: seq<T.Event>, c: seq<T.Event>)
    ensures T.Run(w, a + b + c) == T.Run(T.Run(T.Run(w, a), b), c)
  {
    hide T.Run, T.Step;
    RunConcat(w, a + b, c);
    RunConcat(w, a, b);
  }

  /** Whether the guard marks an error. */
  predicate Marks(c: S.Code, h: nat, b: S.Ran)
    requires c.Call?
  {
    c.wraps && c.fails && !b.panicked && h != 0
  }

  lemma CallRuns(sdk: S.Sdk, c: S.Code, st: S.St)
    requires c.Call?
    ensures var (h, st1) := S.Entered(sdk, c.name, st);
            var b := S.Run(sdk, c.body, st1);
            var left := LeftBy(sdk, h, Marks(c, h, b), b.st);
            S.Run(sdk, c, st) ==
            if b.panicked then S.Ran(left, true, [h] + b.handles)
            else
              var r := S.Run(sdk, c.rest, left);
              r.(handles := [h] + b.handles + r.handles)
  {
    hide S.Entered, S.Exited, S.Marked;
  }

  lemma CallSteps(sdk: S.Sdk, c: S.Code, st: S.St, t: T.Tid, h: nat, b: S.Ran, es: seq<T.Event>)
    requires c.Call? && h == S.Entered(sdk, c.name, st).0 && b == S.Run(sdk, c.body, S.Entered(sdk, c.name, st).1)
    requires IsCallPrefix(sdk, c, st, t, h, b, es)
    ensures CodeSteps(sdk, c, st, t)
         == if b.panicked then es else es + CodeSteps(sdk, c.rest, LeftBy(sdk, h, Marks(c, h, b), b.st), t)
  {
    hide S.Entered, S.Exited, S.Marked, S.Run, ExitSteps, EnterSteps, ErrorFault;
  }

  /** The steps of a call up to the point where its guard has been dropped. */
  ghost predicate IsCallPrefix(sdk: S.Sdk, c: S.Code, st: S.St, t: T.Tid, h: nat, b: S.Ran, es: seq<T.Event>)
    requires c.Call?
  {
    es == EnterSteps(sdk, c.name, st, t) + CodeSteps(sdk, c.body, S.Entered(sdk, c.name, st).1, t)
          + LeaveSteps(sdk, h, Marks(c, h, b), b.st, t)
  }

  lemma {:induction false} Finish(sdk: S.Sdk, c: S.Code, st: S.St, w: T.World, w3: T.World, t: T.Tid, h: nat, b: S.Ran,
                                  es: seq<T.Event>)
    requires c.Call? && h == S.Entered(sdk, c.name, st).0 && b == S.Run(sdk, c.body, S.Entered(sdk, c.name, st).1)
    requires T.Run(w, es) == w3 && IsCallPrefix(sdk, c, st, t, h, b, es)
    requires Becomes(w, w3, t, LeftBy(sdk, h, Marks(c, h, b), b.st), [h] + b.handles)
    ensures var r := S.Run(sdk, c, st); Becomes(w, T.Run(w, CodeSteps(sdk, c, st, t)), t, r.st, r.handles)
    decreases c.rest, 2
  {
    hide T.Step, T.Run, Shows, Becomes, ExitSteps, EnterSteps, ErrorFault, S.Entered, S.Exited, S.Marked, S.Run,
         CodeSteps, LeftBy, LeaveSteps, IsCallPrefix;
    CallRuns(sdk, c, st);
    CallSteps(sdk, c, st, t, h, b, es);
    if !b.panicked {
      var left := LeftBy(sdk, h, Marks(c, h, b), b.st);
      ShowsAfter(w, w3, t, left, [h] + b.handles);
      CodeIsRun(sdk, c.rest, left, w3, t);
      RunConcat(w, es, CodeSteps(sdk, c.rest, left, t));
      Then(sdk, c.rest, w, w3, t, left, [h] + b.handles);
    }
  }
}
