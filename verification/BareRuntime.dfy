/**
  The executor without instrumentation, and what instrumentation adds to it
  (cargo-instrument/src/transform.rs:735-919, docs/implementation/async-context-propagation.md).
 */
module BareRuntime {
  import opened Basics
  import opened AsyncRuntime

  // The program's own state knows nothing of contexts and spans: which calls and polls are in progress on
  // a thread, whether it is panicking, and how far each future has come.

  datatype Stage = NotStarted | Parked | OnThread | Gone

  datatype Future = Future(isTask: bool, stage: Stage)

  /** Calls in progress, innermost last: a poll of a future, or an instrumented sync call. */
  datatype Worker = Worker(calls: seq<Option<Fid>>, panics: nat)

  datatype Bare = Bare(workers: map<Tid, Worker>, futures: map<Fid, Future>)

  function Return(b: Bare, t: Tid): Bare
    requires t in b.workers && b.workers[t].calls != []
  {
    var calls := b.workers[t].calls;
    b.(workers := b.workers[t := b.workers[t].(calls := calls[..|calls| - 1])])
  }

  function Call(b: Bare, t: Tid, call: Option<Fid>): Bare
    requires t in b.workers
  {
    b.(workers := b.workers[t := b.workers[t].(calls := b.workers[t].calls + [call])])
  }

  function Move(b: Bare, f: Fid, stage: Stage): Bare {
    if f in b.futures then b.(futures := b.futures[f := b.futures[f].(stage := stage)]) else b
  }

  function Panicking(b: Bare, t: Tid, n: nat): Bare
    requires t in b.workers
  {
    b.(workers := b.workers[t := b.workers[t].(panics := n)])
  }

  /** The innermost call of thread t, if any. */
  function Innermost(b: Bare, t: Tid): Option<Option<Fid>>
    requires t in b.workers
  {
    var calls := b.workers[t].calls;
    if calls == [] then None else Some(calls[|calls| - 1])
  }

  predicate CanStart(b: Bare, f: Fid) { f in b.futures && b.futures[f].stage in {NotStarted, Parked} }

  function BareStep(b: Bare, e: Event): Bare {
    if e.t !in b.workers then b
    else
      var top := Innermost(b, e.t);
      match e
      case Create(_, f, _, _) => if f in b.futures then b else b.(futures := b.futures[f := Future(false, NotStarted)])
      case Dispatch(_, f) => if f in b.futures then b else b.(futures := b.futures[f := Future(true, NotStarted)])
      case PollStart(t, f) => if CanStart(b, f) then Move(Call(b, t, Some(f)), f, OnThread) else b
      case PollPending(t) => if top.Some? && top.value.Some? then Move(Return(b, t), top.value.value, Parked) else b
      case PollReady(t, _) => if top.Some? && top.value.Some? then Move(Return(b, t), top.value.value, Gone) else b
      case SyncEnter(t) => Call(b, t, None)
      case SyncExit(t) => if top == Some(None) then Return(b, t) else b
      case Panic(t) => Panicking(b, t, b.workers[t].panics + 1)
      case Catch(t) => if b.workers[t].panics > 0 then Panicking(b, t, b.workers[t].panics - 1) else b
      case Unwind(t) =>
        if b.workers[t].panics == 0 || top.None? then b
        else if top.value.Some? then Move(Return(b, t), top.value.value, Gone)
        else Return(b, t)
      case Drop(_, f) => if CanStart(b, f) then Move(b, f, Gone) else b
  }

  function BareRun(b: Bare, es: seq<Event>): Bare
    decreases |es|
  {
    if es == [] then b else BareStep(BareRun(b, es[..|es| - 1]), es[|es| - 1])
  }

  // ---------------------------------------------------------------------------
  // Instrumentation is invisible to the program
  // ---------------------------------------------------------------------------

  function StageOf(p: Phase): Stage {
    match p
    case Unpolled => NotStarted
    case Suspended => Parked
    case Running(_, _) => OnThread
    case Ended => Gone
  }

  function CallsOf(frames: seq<Frame>): (r: seq<Option<Fid>>)
    ensures |r| == |frames| && forall i :: 0 <= i < |r| ==> r[i] == frames[i].fut
  {
    seq(|frames|, i requires 0 <= i < |frames| => frames[i].fut)
  }

  /** Forget contexts and spans. */
  function Erase(w: World): Bare {
    Bare(map t | t in w.threads :: Worker(CallsOf(w.threads[t].frames), w.threads[t].panics),
         map f | f in w.futs :: Future(w.futs[f].kind.Task?, StageOf(w.futs[f].phase)))
  }

  /** The innermost call of the erased thread is the future of the top frame. */
  lemma InnermostIsTop(w: World, t: Tid)
    requires Inv(w) && t in w.threads
    ensures var th := w.threads[t];
            Innermost(Erase(w), t) == if th.frames == [] then None else Some(Top(th).fut)
    ensures var top := Innermost(Erase(w), t); top.Some? && top.value.Some? <==> Polling(w, t)
  {
    hide FutOk, SpanOk;
    var frames := w.threads[t].frames;
    assert ThreadOk(w, t, w.threads[t]);
    if frames != [] { assert FrameOk(w, t, |frames| - 1, frames[|frames| - 1]); }
  }

  lemma EraseFinish(w: World, f: Fid, completed: bool, panicking: bool, failed: bool)
    requires f in w.futs
    ensures Erase(Finish(w, f, completed, panicking, failed)) == Move(Erase(w), f, Gone)
  {
    hide LifecycleOutcome;
    var v := Finish(w, f, completed, panicking, failed);
    assert v.threads == w.threads && v.futs == w.futs[f := w.futs[f].(phase := Ended)];
  }

  lemma EraseEnter(w: World, t: Tid)
    requires t in w.threads
    ensures Erase(Step(w, SyncEnter(t))) == Call(Erase(w), t, None)
  {
    var th := w.threads[t];
    var pushed := Push(th, None, Some(|w.spans|), HomeOf(th));
    assert CallsOf(pushed.frames) == CallsOf(th.frames) + [None];
    assert Step(w, SyncEnter(t)).threads == w.threads[t := pushed];
  }

  lemma ErasePanics(w: World, t: Tid, n: nat)
    requires t in w.threads
    ensures Erase(w.(threads := w.threads[t := w.threads[t].(panics := n)])) == Panicking(Erase(w), t, n)
  {
  }

  lemma EraseNew(w: World, f: Fid, fut: Fut)
    requires f !in w.futs && fut.phase.Unpolled?
    ensures var b := Erase(w);
            Erase(w.(futs := w.futs[f := fut])) == b.(futures := b.futures[f := Future(fut.kind.Task?, NotStarted)])
  {
  }

  lemma ErasePop(w: World, t: Tid)
    requires t in w.threads && w.threads[t].frames != []
    ensures Erase(PopFrame(w, t)) == Return(Erase(w), t)
  {
    var frames := w.threads[t].frames;
    assert CallsOf(frames[..|frames| - 1]) == CallsOf(frames)[..|frames| - 1];
  }

  lemma EraseStart(w: World, t: Tid, f: Fid)
    requires t in w.threads && f in w.futs
    ensures Erase(StartPoll(w, t, f)) == Move(Call(Erase(w), t, Some(f)), f, OnThread)
  {
    hide RunningTask;
    var v := StartPoll(w, t, f);
    var n := |w.threads[t].frames|;
    assert CallsOf(v.threads[t].frames) == CallsOf(w.threads[t].frames) + [Some(f)];
    assert v.futs == w.futs[f := v.futs[f]] && StageOf(v.futs[f].phase) == OnThread;
    assert v.threads == w.threads[t := v.threads[t]];
  }

  lemma EraseChanged(w: World, f: Fid, phase: Phase)
    requires f in w.futs
    ensures Erase(w.(futs := w.futs[f := w.futs[f].(phase := phase)])) == Move(Erase(w), f, StageOf(phase))
  {
  }

  lemma EndIsInvisible(w: World, e: Event)
    requires Inv(w) && e.t in w.threads && (e.PollPending? || e.PollReady? || e.Unwind? || e.Drop?)
    ensures Erase(Step(w, e)) == BareStep(Erase(w), e)
  {
    hide Inv, Finish, RunningTask, CallsOf;
    var t := e.t;
    var th := w.threads[t];
    InnermostIsTop(w, t);
    if th.frames != [] { ErasePop(w, t); }
    match e
    case PollPending(_) => if Polling(w, t) { EraseChanged(PopFrame(w, t), Top(th).fut.value, Suspended); }
    case PollReady(_, isErr) =>
      if Polling(w, t) {
        var f := Top(th).fut.value;
        var failed := isErr && w.futs[f].kind.AsyncFn? && w.futs[f].kind.result;
        EraseFinish(PopFrame(w, t), f, true, th.panics > 0, failed);
      }
    case Unwind(_) =>
      if th.frames != [] && Polling(w, t) { EraseFinish(PopFrame(w, t), Top(th).fut.value, false, true, false); }
    case Drop(_, f) => if Idle(w, f) { EraseFinish(w, f, false, th.panics > 0, false); }
  }

  lemma OtherIsInvisible(w: World, e: Event)
    requires Inv(w) && e.t in w.threads && !(e.PollPending? || e.PollReady? || e.Unwind? || e.Drop?)
    ensures Erase(Step(w, e)) == BareStep(Erase(w), e)
  {
    hide Inv, StartPoll, RunningTask, CallsOf, Call, Return, Move, Panicking, Push;
    var t := e.t;
    var th := w.threads[t];
    InnermostIsTop(w, t);
    match e
    case Create(_, f, lifecycle, result) =>
      if f !in w.futs { EraseNew(w, f, Fut(AsyncFn(lifecycle, result), Unpolled, None, None)); }
    case Dispatch(_, f) => if f !in w.futs { EraseNew(w, f, Fut(Task(th.current), Unpolled, None, Some(f))); }
    case PollStart(_, f) => if Idle(w, f) { EraseStart(w, t, f); }
    case SyncEnter(_) => EraseEnter(w, t);
    case SyncExit(_) => if th.frames != [] { ErasePop(w, t); }
    case Panic(_) => ErasePanics(w, t, th.panics + 1);
    case Catch(_) => if th.panics > 0 { ErasePanics(w, t, th.panics - 1); }
  }

  /** One event does to the program what it would do without instrumentation. */
  lemma StepIsInvisible(w: World, e: Event)
    requires Inv(w)
    ensures Erase(Step(w, e)) == BareStep(Erase(w), e)
  {
    hide Inv, Step, BareStep;
    if e.t !in w.threads {
      NoThreadNoStep(w, e);
    } else if e.PollPending? || e.PollReady? || e.Unwind? || e.Drop? {
      EndIsInvisible(w, e);
    } else {
      OtherIsInvisible(w, e);
    }
  }

  lemma NoThreadNoStep(w: World, e: Event)
    requires e.t !in w.threads
    ensures Step(w, e) == w && BareStep(Erase(w), e) == Erase(w)
  {
  }

  /** Over every run the instrumented program is where the program without instrumentation would be. */
  lemma {:induction false} InstrumentationIsInvisible(w: World, es: seq<Event>)
    requires Init(w)
    ensures Erase(Run(w, es)) == BareRun(Erase(w), es)
    decreases |es|
  {
    hide Step, BareStep, Erase;
    if es != [] {
      InstrumentationIsInvisible(w, es[..|es| - 1]);
      RunKeepsInv(w, es[..|es| - 1]);
      StepIsInvisible(Run(w, es[..|es| - 1]), es[|es| - 1]);
    }
  }

  // ---------------------------------------------------------------------------
  // What instrumentation adds
  // ---------------------------------------------------------------------------

  /** The program starts an instrumented call: a sync call, or the first poll of an async function's future. */
  predicate Starts(b: Bare, e: Event) {
    && e.t in b.workers
    && (e.SyncEnter? || (e.PollStart? && e.fut in b.futures && b.futures[e.fut] == Future(false, NotStarted)))
  }

  function Starting(b: Bare, es: seq<Event>): nat
    decreases |es|
  {
    if es == [] then 0
    else
      var n := |es| - 1;
      Starting(b, es[..n]) + if Starts(BareRun(b, es[..n]), es[n]) then 1 else 0
  }

  /** The span of a started call: below the context current on its thread, and nothing recorded yet. */
  ghost predicate FreshSpan(w: World, e: Event, span: Span)
    requires e.t in w.threads
  {
    && span.parent == w.threads[e.t].current && span.origin == (if e.PollStart? then Some(e.fut) else None)
    && span.outcomes == [] && !span.error && !span.ended
  }

  /** An event opens a span exactly when the program starts an instrumented call. */
  lemma StepOpensSpans(w: World, e: Event)
    requires Inv(w)
    ensures var v := Step(w, e);
            if Starts(Erase(w), e) then |v.spans| == |w.spans| + 1 && FreshSpan(w, e, v.spans[|w.spans|])
            else |v.spans| == |w.spans|
  {
    hide Inv, RunningTask, LifecycleOutcome, CallsOf;
  }

  /** Over every run there is one span for each instrumented call the program started. */
  lemma {:induction false} SpansAreCalls(w: World, es: seq<Event>)
    requires Init(w)
    ensures |Run(w, es).spans| == Starting(Erase(w), es)
    decreases |es|
  {
    hide Step, Starts, Erase, BareStep, Inv;
    if es != [] {
      var n := |es| - 1;
      SpansAreCalls(w, es[..n]);
      RunKeepsInv(w, es[..n]);
      InstrumentationIsInvisible(w, es[..n]);
      StepOpensSpans(Run(w, es[..n]), es[n]);
    }
  }

  /**
    A frame runs under its own context: a task's poll under the context captured at dispatch, every
    poll of an async function under its one span, a sync call under a span of no future.
   */
  ghost predicate RunsUnderOwn(w: World, fr: Frame) {
    match fr.fut
    case None => fr.cx.Some? && fr.cx.value < |w.spans| && w.spans[fr.cx.value].origin == None
    case Some(f) =>
      && f in w.futs
      && match w.futs[f].kind
         case Task(captured) => fr.cx == captured
         case AsyncFn(_, _) => fr.cx == w.futs[f].span && fr.cx.Some?
  }

  ghost predicate AllRunUnderOwn(w: World) {
    forall t, k :: t in w.threads && 0 <= k < |w.threads[t].frames| ==> RunsUnderOwn(w, w.threads[t].frames[k])
  }

  lemma OwnStaysOwn(w: World, v: World, fr: Frame)
    requires Grows(w, v) && RunsUnderOwn(w, fr)
    ensures RunsUnderOwn(v, fr)
  {
  }

  lemma NewFrameRunsUnderOwn(w: World, e: Event)
    requires Inv(w) && e.t in w.threads && e.t in Step(w, e).threads
    requires |Step(w, e).threads[e.t].frames| > |w.threads[e.t].frames|
    ensures RunsUnderOwn(Step(w, e), Step(w, e).threads[e.t].frames[|w.threads[e.t].frames|])
  {
    hide ThreadOk, SpanOk, RunningTask, LifecycleOutcome;
    if e.PollStart? && Idle(w, e.fut) { assert FutOk(w, e.fut); }
  }

  lemma StepRunsUnderOwn(w: World, e: Event)
    requires Inv(w) && AllRunUnderOwn(w)
    ensures AllRunUnderOwn(Step(w, e))
  {
    hide Step, Inv;
    var v := Step(w, e);
    StepGrows(w, e);
    StepKeepsThreadSet(w, e);
    forall t, k | t in v.threads && 0 <= k < |v.threads[t].frames| ensures RunsUnderOwn(v, v.threads[t].frames[k]) {
      var before, now := w.threads[t].frames, v.threads[t].frames;
      StepMovesOneFrame(w, e, t);
      if k < |before| {
        assert now[k] == before[k];
        OwnStaysOwn(w, v, before[k]);
      } else {
        NewFrameRunsUnderOwn(w, e);
      }
    }
  }

  /** Over every run all work runs under its own context, and the innermost call's is the current one. */
  lemma {:induction false} WorkRunsUnderOwn(w: World, es: seq<Event>)
    requires Init(w)
    ensures AllRunUnderOwn(Run(w, es))
    ensures forall t :: t in Run(w, es).threads ==>
              var th := Run(w, es).threads[t];
              th.current == if th.frames == [] then None else Top(th).cx
    decreases |es|
  {
    hide Step, RunsUnderOwn;
    if es != [] {
      WorkRunsUnderOwn(w, es[..|es| - 1]);
      RunKeepsInv(w, es[..|es| - 1]);
      StepRunsUnderOwn(Run(w, es[..|es| - 1]), es[|es| - 1]);
    }
    RunKeepsInv(w, es);
    forall t | t in Run(w, es).threads ensures ThreadOk(Run(w, es), t, Run(w, es).threads[t]) {}
  }

  // ---------------------------------------------------------------------------
  // Kinds of futures
  // ---------------------------------------------------------------------------

  /** Event number i made future f what it is. */
  ghost predicate Made(w: World, es: seq<Event>, i: nat, f: Fid, lifecycle: bool, result: bool) {
    && i < |es| && es[i].Create? && es[i] == Create(es[i].t, f, lifecycle, result)
    && es[i].t in w.threads && f !in Run(w, es[..i]).futs
  }

  lemma StepMakes(w: World, e: Event, f: Fid)
    requires f in Step(w, e).futs && f !in w.futs && Step(w, e).futs[f].kind.AsyncFn?
    ensures var kind := Step(w, e).futs[f].kind; e.t in w.threads && e == Create(e.t, f, kind.lifecycle, kind.result)
  {
    hide RunningTask, LifecycleOutcome;
  }

  /** A future is guarded and returns a Result exactly as the event that created it says. */
  lemma {:induction false} KindIsAsMade(w: World, es: seq<Event>, f: Fid)
    requires Init(w) && f in Run(w, es).futs && Run(w, es).futs[f].kind.AsyncFn?
    ensures var kind := Run(w, es).futs[f].kind; exists i: nat :: Made(w, es, i, f, kind.lifecycle, kind.result)
    decreases |es|
  {
    hide Step;
    var n := |es| - 1;
    var before := Run(w, es[..n]);
    var kind := Run(w, es).futs[f].kind;
    RunKeepsInv(w, es[..n]);
    ThreadsAreFixed(w, es[..n]);
    if f in before.futs {
      StepGrows(before, es[n]);
      KindIsAsMade(w, es[..n], f);
      var i: nat :| Made(w, es[..n], i, f, kind.lifecycle, kind.result);
      PrefixOfPrefix(es, i);
      assert Made(w, es, i, f, kind.lifecycle, kind.result);
    } else {
      StepMakes(before, es[n], f);
      assert Made(w, es, n, f, kind.lifecycle, kind.result);
    }
  }

  /**
    The whole of it, from the events alone: a polled and ended future was made by one event and ended
    by one, and its span has ended in error exactly when it was made to return a Result and the ending
    event returns an Err, with one outcome exactly when it was made with a guard.
   */
  lemma RecordsFromEvents(w: World, es: seq<Event>, f: Fid)
    requires Init(w) && Started(Run(w, es), f) && Run(w, es).futs[f].phase.Ended?
    ensures exists i: nat, k: nat, lifecycle: bool, result: bool ::
              && Made(w, es, k, f, lifecycle, result) && EndedExactlyAt(w, es, i, f)
              && RecordOf(Run(w, es), f) == Verdict(es, i, lifecycle, result)
  {
    hide Run, Made, EndedExactlyAt, Verdict, RecordOf;
    ExactlyOneOutcome(w, es, f);
    KindIsAsMade(w, es, f);
    var kind := Run(w, es).futs[f].kind;
    var i: nat :| Settled(w, es, i, f);
    var k: nat :| Made(w, es, k, f, kind.lifecycle, kind.result);
  }
}
