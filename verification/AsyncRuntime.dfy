/**
  Native async emission and task dispatch on a multi-threaded executor
  (cargo-instrument/src/transform.rs:735-919, docs/implementation/async-context-propagation.md).
 */
module AsyncRuntime {
  import opened Basics

  // Threads poll, suspend, finish, unwind and drop futures in any interleaving. A future is the body
  // of an instrumented async function, wrapped in `with_context`, or a task dispatched from a rewritten
  // spawn site, wrapped with the context current at dispatch. Frames are the polls and instrumented
  // sync calls in progress on a thread; each saves the context it replaced.

  type Tid = nat
  type Fid = nat

  /** Current OpenTelemetry context: the active span, if any. */
  type Ctx = Option<nat>

  datatype Outcome = Completed | UnwoundOut | Cancelled

  /** `lifecycle` is dependency emission; `result` is a recognized Result return type. */
  datatype Kind = AsyncFn(lifecycle: bool, result: bool) | Task(captured: Ctx)

  /** A running future is the k-th frame of thread t. */
  datatype Phase = Unpolled | Suspended | Running(t: Tid, k: nat) | Ended

  /** `span` exists from the first poll on; `home` is the spawned task it was first polled in. */
  datatype Fut = Fut(kind: Kind, phase: Phase, span: Option<nat>, home: Option<Fid>)

  /** A poll (`fut`) or a sync call (None) in progress: context attached, context saved, task it works for. */
  datatype Frame = Frame(fut: Option<Fid>, cx: Ctx, saved: Ctx, home: Option<Fid>)

  datatype Thread = Thread(current: Ctx, frames: seq<Frame>, panics: nat)

  /** `opener` is the spawned task whose poll was innermost on the opening thread. */
  datatype Span = Span(parent: Ctx, origin: Option<Fid>, home: Option<Fid>, opener: Option<Fid>,
                       outcomes: seq<Outcome>, error: bool, ended: bool)

  datatype World = World(threads: map<Tid, Thread>, futs: map<Fid, Fut>, spans: seq<Span>)

  datatype Event =
    | Create(t: Tid, fut: Fid, lifecycle: bool, result: bool)
    | Dispatch(t: Tid, fut: Fid)             // spawn(with_context(future, Context::current()))
    | PollStart(t: Tid, fut: Fid)
    | PollPending(t: Tid)
    | PollReady(t: Tid, isErr: bool)
    | SyncEnter(t: Tid)
    | SyncExit(t: Tid)
    | Panic(t: Tid)
    | Unwind(t: Tid)                         // the innermost frame is torn down by a panic
    | Catch(t: Tid)
    | Drop(t: Tid, fut: Fid)

  function Top(th: Thread): Frame
    requires th.frames != []
  {
    th.frames[|th.frames| - 1]
  }

  function HomeOf(th: Thread): Option<Fid> { if th.frames == [] then None else Top(th).home }

  /** The innermost task poll on a thread. */
  function RunningTask(w: World, frames: seq<Frame>): Option<Fid> {
    if frames == [] then None
    else
      var top := frames[|frames| - 1];
      if top.fut.Some? && top.fut.value in w.futs && w.futs[top.fut.value].kind.Task? then top.fut
      else RunningTask(w, frames[..|frames| - 1])
  }

  function Push(th: Thread, fut: Option<Fid>, cx: Ctx, home: Option<Fid>): Thread {
    th.(current := cx, frames := th.frames + [Frame(fut, cx, th.current, home)])
  }

  /** Detach: the saved context comes back. */
  function Pop(th: Thread): Thread
    requires th.frames != []
  {
    th.(current := Top(th).saved, frames := th.frames[..|th.frames| - 1])
  }

  /** `Drop for __OtelLifecycle`. */
  function LifecycleOutcome(completed: bool, panicking: bool): Outcome {
    if completed then Completed else if panicking then UnwoundOut else Cancelled
  }

  /** A started instrumented future goes away: its guard, if any, records the outcome; the span ends. */
  function Finish(w: World, f: Fid, completed: bool, panicking: bool, failed: bool): World
    requires f in w.futs
  {
    var fut := w.futs[f];
    var futs := w.futs[f := fut.(phase := Ended)];
    if !fut.kind.AsyncFn? || fut.span.None? || fut.span.value >= |w.spans| then w.(futs := futs)
    else
      var s := w.spans[fut.span.value];
      var recorded := if fut.kind.lifecycle then s.outcomes + [LifecycleOutcome(completed, panicking)] else s.outcomes;
      var ended := s.(outcomes := recorded, ended := true, error := s.error || failed);
      w.(futs := futs, spans := w.spans[fut.span.value := ended])
  }

  function OpenSpan(w: World, th: Thread, origin: Option<Fid>): Span {
    Span(th.current, origin, HomeOf(th), RunningTask(w, th.frames), [], false, false)
  }

  /** Future::poll is entered: a first poll of an instrumented body opens its span. */
  function StartPoll(w: World, t: Tid, f: Fid): World
    requires t in w.threads && f in w.futs
  {
    var th := w.threads[t];
    var fut := w.futs[f];
    var running := Running(t, |th.frames|);
    if fut.kind.Task? then
      w.(threads := w.threads[t := Push(th, Some(f), fut.kind.captured, Some(f))],
         futs := w.futs[f := fut.(phase := running)])
    else if fut.phase.Unpolled? then
      var id := |w.spans|;
      World(w.threads[t := Push(th, Some(f), Some(id), HomeOf(th))],
            w.futs[f := fut.(phase := running, span := Some(id), home := HomeOf(th))],
            w.spans + [OpenSpan(w, th, Some(f))])
    else
      w.(threads := w.threads[t := Push(th, Some(f), fut.span, fut.home)],
         futs := w.futs[f := fut.(phase := running)])
  }

  /** The innermost frame of a thread returns or is torn down. */
  function PopFrame(w: World, t: Tid): World
    requires t in w.threads && w.threads[t].frames != []
  {
    w.(threads := w.threads[t := Pop(w.threads[t])])
  }

  /** Is the innermost frame of thread t a poll? */
  predicate Polling(w: World, t: Tid) {
    && t in w.threads && w.threads[t].frames != []
    && Top(w.threads[t]).fut.Some? && Top(w.threads[t]).fut.value in w.futs
  }

  predicate Idle(w: World, f: Fid) {
    f in w.futs && (w.futs[f].phase.Unpolled? || w.futs[f].phase.Suspended?)
  }

  /** One event; an event that is not enabled changes nothing. */
  function Step(w: World, e: Event): World {
    if e.t !in w.threads then w
    else
      var t := e.t;
      var th := w.threads[t];
      match e
      case Create(_, f, lifecycle, result) =>
        if f in w.futs then w
        else w.(futs := w.futs[f := Fut(AsyncFn(lifecycle, result), Unpolled, None, None)])
      case Dispatch(_, f) =>
        if f in w.futs then w
        else w.(futs := w.futs[f := Fut(Task(th.current), Unpolled, None, Some(f))])
      case PollStart(_, f) => if Idle(w, f) then StartPoll(w, t, f) else w
      case PollPending(_) =>
        if !Polling(w, t) then w
        else
          var f := Top(th).fut.value;
          PopFrame(w, t).(futs := w.futs[f := w.futs[f].(phase := Suspended)])
      case PollReady(_, isErr) =>
        if !Polling(w, t) then w
        else
          var f := Top(th).fut.value;
          Finish(PopFrame(w, t), f, true, th.panics > 0, isErr && w.futs[f].kind.AsyncFn? && w.futs[f].kind.result)
      case SyncEnter(_) =>
        w.(threads := w.threads[t := Push(th, None, Some(|w.spans|), HomeOf(th))],
           spans := w.spans + [OpenSpan(w, th, None)])
      case SyncExit(_) => if th.frames == [] || Top(th).fut.Some? then w else PopFrame(w, t)
      case Panic(_) => w.(threads := w.threads[t := th.(panics := th.panics + 1)])
      case Catch(_) => if th.panics == 0 then w else w.(threads := w.threads[t := th.(panics := th.panics - 1)])
      case Unwind(_) =>
        if th.panics == 0 || th.frames == [] then w
        else if Polling(w, t) then Finish(PopFrame(w, t), Top(th).fut.value, false, true, false)
        else PopFrame(w, t)
      case Drop(_, f) => if Idle(w, f) then Finish(w, f, false, th.panics > 0, false) else w
  }

  function Run(w: World, es: seq<Event>): World
    decreases |es|
  {
    if es == [] then w else Step(Run(w, es[..|es| - 1]), es[|es| - 1])
  }

  /** Idle threads, no futures, no spans. */
  ghost predicate Init(w: World) {
    && w.futs == map[] && w.spans == []
    && forall t :: t in w.threads ==> w.threads[t] == Thread(None, [], 0)
  }

  // ---------------------------------------------------------------------------
  // Invariant
  // ---------------------------------------------------------------------------

  /** The context in force with only the first k frames on the thread. */
  function CxAt(frames: seq<Frame>, k: nat): Ctx
    requires k <= |frames|
  {
    if k == 0 then None else frames[k - 1].cx
  }

  predicate SavedOk(frames: seq<Frame>, k: nat)
    requires k < |frames|
  {
    frames[k].saved == CxAt(frames, k)
  }

  /** The current context is the top frame's, and every frame saved the context below it. */
  ghost predicate Stacked(th: Thread) {
    && th.current == CxAt(th.frames, |th.frames|)
    && forall k :: 0 <= k < |th.frames| ==> SavedOk(th.frames, k)
  }

  /** A context that work for task `home` may run under: its dispatch context or one of its spans. */
  predicate WithinTask(w: World, cx: Ctx, home: Option<Fid>) {
    match home
    case None => true
    case Some(task) =>
      && task in w.futs && w.futs[task].kind.Task?
      && (cx == w.futs[task].kind.captured || (cx.Some? && cx.value < |w.spans| && w.spans[cx.value].home == home))
  }

  predicate FrameOk(w: World, t: Tid, k: nat, fr: Frame) {
    && WithinTask(w, fr.cx, fr.home)
    && (fr.cx.Some? ==> fr.cx.value < |w.spans|)
    && (fr.fut.Some? ==>
        && fr.fut.value in w.futs
        && w.futs[fr.fut.value].phase == Running(t, k))
  }

  /** Span and outcome bookkeeping of one future. */
  predicate FutOk(w: World, f: Fid)
    requires f in w.futs
  {
    var fut := w.futs[f];
    match fut.kind
    case Task(captured) =>
      && fut.span.None? && fut.home == Some(f)
      && (captured.Some? ==> captured.value < |w.spans| && w.spans[captured.value].home != Some(f))
    case AsyncFn(lifecycle, _) =>
      && (fut.phase.Unpolled? ==> fut.span.None?)
      && (fut.phase.Running? || fut.phase.Suspended? ==> fut.span.Some?)
      && (fut.span.Some? ==>
          && fut.span.value < |w.spans|
          && w.spans[fut.span.value].origin == Some(f)
          && w.spans[fut.span.value].home == fut.home
          && w.spans[fut.span.value].ended == fut.phase.Ended?
          && (w.spans[fut.span.value].error ==> fut.phase.Ended?)
          && |w.spans[fut.span.value].outcomes| == if lifecycle && fut.phase.Ended? then 1 else 0)
  }

  predicate SpanOk(w: World, s: nat)
    requires s < |w.spans|
  {
    var span := w.spans[s];
    && WithinTask(w, span.parent, span.home)
    && (span.parent.Some? ==> span.parent.value < s)
    && (span.origin.Some? ==>
        && span.origin.value in w.futs
        && w.futs[span.origin.value].kind.AsyncFn?
        && w.futs[span.origin.value].span == Some(s))
  }

  ghost predicate ThreadOk(w: World, t: Tid, th: Thread) {
    Stacked(th) && forall k :: 0 <= k < |th.frames| ==> FrameOk(w, t, k, th.frames[k])
  }

  ghost predicate Inv(w: World) {
    && (forall t :: t in w.threads ==> ThreadOk(w, t, w.threads[t]))
    && (forall f :: f in w.futs ==> FutOk(w, f))
    && (forall s :: 0 <= s < |w.spans| ==> SpanOk(w, s))
  }

  /** Kinds of futures and origins of spans never change; both collections only grow. */
  ghost predicate Grows(w: World, v: World) {
    && (forall f :: f in w.futs ==>
         f in v.futs && v.futs[f].kind == w.futs[f].kind && (w.futs[f].span.Some? ==> v.futs[f].span == w.futs[f].span))
    && |w.spans| <= |v.spans|
    && (forall s :: 0 <= s < |w.spans| ==>
         && v.spans[s].parent == w.spans[s].parent && v.spans[s].origin == w.spans[s].origin
         && v.spans[s].home == w.spans[s].home && v.spans[s].opener == w.spans[s].opener)
  }

  lemma GrowthKeepsSpans(w: World, v: World)
    requires Inv(w) && Grows(w, v)
    ensures forall s :: 0 <= s < |w.spans| ==> SpanOk(v, s)
  {
    hide ThreadOk, FutOk;
    forall s | 0 <= s < |w.spans| ensures SpanOk(v, s) {
      assert SpanOk(w, s);
    }
  }

  lemma PopKeepsThread(w: World, t: Tid, th: Thread)
    requires ThreadOk(w, t, th) && th.frames != []
    ensures ThreadOk(w, t, Pop(th))
  {
    hide FrameOk;
    var n := |th.frames| - 1;
    var below := Pop(th).frames;
    assert SavedOk(th.frames, n);
    forall k | 0 <= k < n ensures SavedOk(below, k) && FrameOk(w, t, k, below[k]) {
      assert SavedOk(th.frames, k) && FrameOk(w, t, k, th.frames[k]);
    }
  }

  lemma PushKeepsThread(w: World, t: Tid, th: Thread, fut: Option<Fid>, cx: Ctx, home: Option<Fid>)
    requires ThreadOk(w, t, th)
    requires FrameOk(w, t, |th.frames|, Frame(fut, cx, th.current, home))
    ensures ThreadOk(w, t, Push(th, fut, cx, home))
  {
    hide FrameOk;
    var pushed := Push(th, fut, cx, home);
    forall k | 0 <= k < |pushed.frames| ensures SavedOk(pushed.frames, k) && FrameOk(w, t, k, pushed.frames[k]) {
      if k < |th.frames| { assert SavedOk(th.frames, k) && FrameOk(w, t, k, th.frames[k]); }
    }
  }

  /** The thread's current context is one its innermost work may run under. */
  lemma CurrentIsWithin(w: World, t: Tid)
    requires Inv(w) && t in w.threads
    ensures WithinTask(w, w.threads[t].current, HomeOf(w.threads[t]))
    ensures w.threads[t].current.Some? ==> w.threads[t].current.value < |w.spans|
  {
    var th := w.threads[t];
    assert ThreadOk(w, t, th);
    if th.frames != [] { assert FrameOk(w, t, |th.frames| - 1, Top(th)); }
  }

  lemma NewFutKeepsInv(w: World, f: Fid, fut: Fut)
    requires Inv(w) && f !in w.futs
    requires fut.phase.Unpolled? && fut.span.None?
    requires FutOk(w.(futs := w.futs[f := fut]), f)
    ensures Inv(w.(futs := w.futs[f := fut]))
  {
    var v := w.(futs := w.futs[f := fut]);
    assert forall t :: t in v.threads ==> ThreadOk(v, t, v.threads[t]);
    forall g | g in v.futs ensures FutOk(v, g) { if g != f { assert FutOk(w, g); } }
    GrowthKeepsSpans(w, v);
  }

  lemma SyncEnterKeepsInv(w: World, t: Tid)
    requires Inv(w) && t in w.threads
    ensures Inv(Step(w, SyncEnter(t)))
  {
    hide Stacked, RunningTask;
    var v := Step(w, SyncEnter(t));
    var th := w.threads[t];
    CurrentIsWithin(w, t);
    forall u | u in v.threads ensures ThreadOk(v, u, v.threads[u]) {
      if u == t { PushKeepsThread(v, t, th, None, Some(|w.spans|), HomeOf(th)); }
    }
    forall g | g in v.futs ensures FutOk(v, g) { assert FutOk(w, g); }
    GrowthKeepsSpans(w, v);
  }

  lemma PanicCountKeepsInv(w: World, t: Tid, n: nat)
    requires Inv(w) && t in w.threads
    ensures Inv(w.(threads := w.threads[t := w.threads[t].(panics := n)]))
  {
    var v := w.(threads := w.threads[t := w.threads[t].(panics := n)]);
    assert forall u :: u in v.threads ==> ThreadOk(v, u, v.threads[u]);
    forall g | g in v.futs ensures FutOk(v, g) { assert FutOk(w, g); }
    GrowthKeepsSpans(w, v);
  }

  /** No frame of these threads polls f. */
  ghost predicate NotPolled(threads: map<Tid, Thread>, f: Fid) {
    forall t, k :: t in threads && 0 <= k < |threads[t].frames| ==> threads[t].frames[k].fut != Some(f)
  }

  lemma PoppedIsNotPolled(w: World, t: Tid)
    requires Inv(w) && Polling(w, t)
    ensures NotPolled(PopFrame(w, t).threads, Top(w.threads[t]).fut.value)
    ensures forall u :: u in w.threads ==> ThreadOk(w, u, PopFrame(w, t).threads[u])
  {
    var f := Top(w.threads[t]).fut.value;
    var n := |w.threads[t].frames| - 1;
    assert ThreadOk(w, t, w.threads[t]) && FrameOk(w, t, n, w.threads[t].frames[n]);
    PopKeepsThread(w, t, w.threads[t]);
    forall u, k | u in w.threads && 0 <= k < |PopFrame(w, t).threads[u].frames|
      ensures PopFrame(w, t).threads[u].frames[k].fut != Some(f)
    {
      assert ThreadOk(w, u, w.threads[u]);
      assert FrameOk(w, u, k, w.threads[u].frames[k]);
    }
  }

  /** A world with these threads, where only future f (and its span's status) changed. */
  lemma ChangedFutKeepsInv(w: World, v: World, f: Fid)
    requires Inv(w) && Grows(w, v) && |v.spans| == |w.spans| && v.futs.Keys == w.futs.Keys && f in w.futs
    requires forall t :: t in v.threads ==> ThreadOk(w, t, v.threads[t])
    requires NotPolled(v.threads, f)
    requires forall g :: g in w.futs && g != f ==> v.futs[g] == w.futs[g]
    requires forall s :: 0 <= s < |w.spans| && w.spans[s].origin != Some(f) ==> v.spans[s] == w.spans[s]
    requires FutOk(v, f)
    ensures Inv(v)
  {
    forall t | t in v.threads ensures ThreadOk(v, t, v.threads[t]) {
      forall k | 0 <= k < |v.threads[t].frames| ensures FrameOk(v, t, k, v.threads[t].frames[k]) {
        assert FrameOk(w, t, k, v.threads[t].frames[k]);
      }
    }
    forall g | g in v.futs ensures FutOk(v, g) { assert FutOk(w, g); }
    GrowthKeepsSpans(w, v);
  }

  lemma FinishKeepsInv(w: World, threads: map<Tid, Thread>, f: Fid, completed: bool, panicking: bool, failed: bool)
    requires Inv(w) && f in w.futs && !w.futs[f].phase.Ended?
    requires forall t :: t in threads ==> ThreadOk(w, t, threads[t])
    requires NotPolled(threads, f)
    ensures Inv(Finish(w.(threads := threads), f, completed, panicking, failed))
  {
    hide Stacked, FrameOk;
    var v := Finish(w.(threads := threads), f, completed, panicking, failed);
    assert FutOk(w, f);
    forall s | 0 <= s < |w.spans| && w.spans[s].origin != Some(f) ensures v.spans[s] == w.spans[s] {}
    ChangedFutKeepsInv(w, v, f);
  }

  lemma StartKeepsThreads(w: World, v: World, t: Tid, f: Fid, cx: Ctx, home: Option<Fid>)
    requires Inv(w) && Grows(w, v) && t in w.threads && Idle(w, f)
    requires v.threads == w.threads[t := Push(w.threads[t], Some(f), cx, home)]
    requires forall g :: g in w.futs && g != f ==> v.futs[g] == w.futs[g]
    requires v.futs[f].phase == Running(t, |w.threads[t].frames|)
    requires WithinTask(v, cx, home) && (cx.Some? ==> cx.value < |v.spans|)
    ensures forall u :: u in v.threads ==> ThreadOk(v, u, v.threads[u])
  {
    var th := w.threads[t];
    forall u | u in v.threads ensures ThreadOk(v, u, v.threads[u]) {
      if u == t { PushKeepsThread(v, t, th, Some(f), cx, home); }
    }
  }

  lemma ResumeKeepsInv(w: World, t: Tid, f: Fid)
    requires Inv(w) && t in w.threads && Idle(w, f)
    requires w.futs[f].kind.AsyncFn? ==> w.futs[f].phase.Suspended?
    ensures Inv(StartPoll(w, t, f))
  {
    hide Stacked, FrameOk, RunningTask;
    var v := StartPoll(w, t, f);
    var fut := w.futs[f];
    assert FutOk(w, f);
    if fut.kind.AsyncFn? {
      assert SpanOk(w, fut.span.value);
      StartKeepsThreads(w, v, t, f, fut.span, fut.home);
    } else {
      StartKeepsThreads(w, v, t, f, fut.kind.captured, Some(f));
    }
    forall g | g in v.futs ensures FutOk(v, g) { assert FutOk(w, g); }
    GrowthKeepsSpans(w, v);
  }

  lemma FirstPollKeepsInv(w: World, t: Tid, f: Fid)
    requires Inv(w) && t in w.threads && Idle(w, f) && w.futs[f].kind.AsyncFn? && w.futs[f].phase.Unpolled?
    ensures Inv(StartPoll(w, t, f))
  {
    hide Stacked, FrameOk, RunningTask;
    var v := StartPoll(w, t, f);
    var home := HomeOf(w.threads[t]);
    CurrentIsWithin(w, t);
    assert FutOk(w, f);
    StartKeepsThreads(w, v, t, f, Some(|w.spans|), home);
    forall g | g in v.futs ensures FutOk(v, g) { assert FutOk(w, g); }
    GrowthKeepsSpans(w, v);
    assert SpanOk(v, |w.spans|);
  }

  lemma StartPollKeepsInv(w: World, t: Tid, f: Fid)
    requires Inv(w) && t in w.threads && Idle(w, f)
    ensures Inv(StartPoll(w, t, f))
  {
    if w.futs[f].kind.AsyncFn? && w.futs[f].phase.Unpolled? {
      FirstPollKeepsInv(w, t, f);
    } else {
      ResumeKeepsInv(w, t, f);
    }
  }

  lemma PopKeepsInv(w: World, t: Tid)
    requires Inv(w) && t in w.threads && w.threads[t].frames != [] && !Polling(w, t)
    ensures Inv(PopFrame(w, t))
  {
    var v := PopFrame(w, t);
    PopKeepsThread(w, t, w.threads[t]);
    assert forall u :: u in v.threads ==> ThreadOk(v, u, v.threads[u]);
    forall g | g in v.futs ensures FutOk(v, g) { assert FutOk(w, g); }
    GrowthKeepsSpans(w, v);
  }

  lemma StepKeepsInv(w: World, e: Event)
    requires Inv(w)
    ensures Inv(Step(w, e))
  {
    hide Inv, Finish, StartPoll, Pop, FutOk;
    if e.t in w.threads {
      var t := e.t;
      var th := w.threads[t];
      match e
      case Create(_, f, lifecycle, result) =>
        if f !in w.futs { NewFutKeepsInv(w, f, Fut(AsyncFn(lifecycle, result), Unpolled, None, None)); }
      case Dispatch(_, f) =>
        if f !in w.futs { DispatchKeepsInv(w, t, f); }
      case PollStart(_, f) => if Idle(w, f) { StartPollKeepsInv(w, t, f); }
      case PollPending(_) => if Polling(w, t) { PendingKeepsInv(w, t); }
      case PollReady(_, isErr) =>
        if Polling(w, t) {
          var kind := w.futs[Top(th).fut.value].kind;
          EndPollKeepsInv(w, t, true, th.panics > 0, isErr && kind.AsyncFn? && kind.result);
        }
      case SyncEnter(_) => SyncEnterKeepsInv(w, t);
      case SyncExit(_) => if th.frames != [] && !Top(th).fut.Some? { PopKeepsInv(w, t); }
      case Panic(_) => PanicCountKeepsInv(w, t, th.panics + 1);
      case Catch(_) => if th.panics > 0 { PanicCountKeepsInv(w, t, th.panics - 1); }
      case Unwind(_) =>
        if th.panics > 0 && th.frames != [] {
          if Polling(w, t) { EndPollKeepsInv(w, t, false, true, false); } else { PopKeepsInv(w, t); }
        }
      case Drop(_, f) =>
        if Idle(w, f) { DropKeepsInv(w, f, th.panics > 0); }
    }
  }

  lemma DropKeepsInv(w: World, f: Fid, panicking: bool)
    requires Inv(w) && Idle(w, f)
    ensures Inv(Finish(w, f, false, panicking, false))
  {
    FinishKeepsInv(w, w.threads, f, false, panicking, false);
  }

  lemma DispatchKeepsInv(w: World, t: Tid, f: Fid)
    requires Inv(w) && t in w.threads && f !in w.futs
    ensures Inv(Step(w, Dispatch(t, f)))
  {
    CurrentIsWithin(w, t);
    var cx := w.threads[t].current;
    if cx.Some? { assert SpanOk(w, cx.value); }
    NewFutKeepsInv(w, f, Fut(Task(cx), Unpolled, None, Some(f)));
  }

  lemma EndPollKeepsInv(w: World, t: Tid, completed: bool, panicking: bool, failed: bool)
    requires Inv(w) && Polling(w, t)
    ensures Inv(Finish(PopFrame(w, t), Top(w.threads[t]).fut.value, completed, panicking, failed))
  {
    var n := |w.threads[t].frames| - 1;
    assert ThreadOk(w, t, w.threads[t]) && FrameOk(w, t, n, w.threads[t].frames[n]);
    PoppedIsNotPolled(w, t);
    FinishKeepsInv(w, PopFrame(w, t).threads, Top(w.threads[t]).fut.value, completed, panicking, failed);
  }

  lemma PendingKeepsInv(w: World, t: Tid)
    requires Inv(w) && Polling(w, t)
    ensures Inv(Step(w, PollPending(t)))
  {
    hide SpanOk, WithinTask;
    var f := Top(w.threads[t]).fut.value;
    var n := |w.threads[t].frames| - 1;
    assert ThreadOk(w, t, w.threads[t]) && FrameOk(w, t, n, w.threads[t].frames[n]);
    assert FutOk(w, f);
    PoppedIsNotPolled(w, t);
    hide FutOk, FrameOk, Stacked;
    assert FutOk(Step(w, PollPending(t)), f);
    ChangedFutKeepsInv(w, Step(w, PollPending(t)), f);
  }

  lemma {:induction false} RunKeepsInv(w: World, es: seq<Event>)
    requires Init(w)
    ensures Inv(Run(w, es))
    decreases |es|
  {
    if es != [] {
      RunKeepsInv(w, es[..|es| - 1]);
      StepKeepsInv(Run(w, es[..|es| - 1]), es[|es| - 1]);
    }
  }

  // ---------------------------------------------------------------------------
  // Lifecycle of instrumented futures
  // ---------------------------------------------------------------------------

  /** No span stands for a future that was never polled. */
  lemma {:induction false} NoSpanBeforeFirstPoll(w: World, es: seq<Event>, f: Fid)
    requires Init(w) && f in Run(w, es).futs && Run(w, es).futs[f].phase.Unpolled?
    ensures Run(w, es).futs[f].span.None?
    ensures forall s :: 0 <= s < |Run(w, es).spans| ==> Run(w, es).spans[s].origin != Some(f)
  {
    RunKeepsInv(w, es);
    var v := Run(w, es);
    assert FutOk(v, f);
    forall s | 0 <= s < |v.spans| ensures v.spans[s].origin != Some(f) { assert SpanOk(v, s); }
  }

  /** Panics raised and not yet caught on a thread, read off the history. */
  function PanicDepth(es: seq<Event>, t: Tid): nat {
    if es == [] then 0
    else
      var before := PanicDepth(es[..|es| - 1], t);
      var e := es[|es| - 1];
      if e == Panic(t) then before + 1 else if e == Catch(t) && before > 0 then before - 1 else before
  }

  lemma StepCountsPanics(w: World, e: Event, t: Tid)
    requires t in w.threads
    ensures t in Step(w, e).threads
    ensures var n := w.threads[t].panics;
            Step(w, e).threads[t].panics == if e == Panic(t) then n + 1 else if e == Catch(t) && n > 0 then n - 1 else n
  {
  }

  lemma {:induction false} PanicDepthIsPanics(w: World, es: seq<Event>, t: Tid)
    requires Init(w) && t in w.threads
    ensures t in Run(w, es).threads && Run(w, es).threads[t].panics == PanicDepth(es, t)
    decreases |es|
  {
    hide Step;
    if es != [] {
      PanicDepthIsPanics(w, es[..|es| - 1], t);
      StepCountsPanics(Run(w, es[..|es| - 1]), es[|es| - 1], t);
    }
  }

  /** The body of f returned in this event. */
  predicate Returns(w: World, e: Event, f: Fid) {
    e.PollReady? && Polling(w, e.t) && Top(w.threads[e.t]).fut == Some(f)
  }

  /** The future f was torn down in this event, by unwinding its poll or by dropping it. */
  predicate TornDown(w: World, e: Event, f: Fid) {
    || (e.Unwind? && Polling(w, e.t) && w.threads[e.t].panics > 0 && Top(w.threads[e.t]).fut == Some(f))
    || (e.Drop? && e.t in w.threads && e.fut == f && Idle(w, f))
  }

  predicate EndsIn(w: World, e: Event, f: Fid) { Returns(w, e, f) || TornDown(w, e, f) }

  /** What the span of a future recorded. */
  datatype Record = Record(outcomes: seq<Outcome>, error: bool, ended: bool)

  /**
    What the documentation says the event that ends a future leaves on its span: an error exactly for
    a returned Err, and one outcome if the future has a lifecycle guard.
   */
  function Verdict(es: seq<Event>, i: nat, lifecycle: bool, result: bool): Record
    requires i < |es|
  {
    var e := es[i];
    var outcome := if e.PollReady? then Completed else if PanicDepth(es[..i], e.t) > 0 then UnwoundOut else Cancelled;
    Record(if lifecycle then [outcome] else [], e.PollReady? && e.isErr && result, true)
  }

  function RecordOf(w: World, f: Fid): Record
    requires f in w.futs
  {
    if w.futs[f].span.Some? && w.futs[f].span.value < |w.spans| then
      var s := w.spans[w.futs[f].span.value];
      Record(s.outcomes, s.error, s.ended)
    else Record([], false, false)
  }

  lemma FinishGrows(w: World, f: Fid, completed: bool, panicking: bool, failed: bool)
    requires f in w.futs
    ensures Grows(w, Finish(w, f, completed, panicking, failed))
  {
  }

  lemma StartPollGrows(w: World, t: Tid, f: Fid)
    requires t in w.threads && f in w.futs && FutOk(w, f)
    ensures Grows(w, StartPoll(w, t, f))
  {
  }

  lemma StepGrows(w: World, e: Event)
    requires Inv(w)
    ensures Grows(w, Step(w, e))
  {
    hide Finish, StartPoll, ThreadOk, SpanOk;
    if e.t in w.threads {
      var th := w.threads[e.t];
      match e
      case PollStart(t, f) => if Idle(w, f) { assert FutOk(w, f); StartPollGrows(w, t, f); }
      case PollReady(t, isErr) =>
        if Polling(w, t) {
          var f := Top(th).fut.value;
          var kind := w.futs[f].kind;
          FinishGrows(PopFrame(w, t), f, true, th.panics > 0, isErr && kind.AsyncFn? && kind.result);
        }
      case Unwind(t) =>
        if th.panics > 0 && Polling(w, t) { FinishGrows(PopFrame(w, t), Top(th).fut.value, false, true, false); }
      case Drop(t, f) => if Idle(w, f) { FinishGrows(w, f, false, th.panics > 0, false); }
      case _ =>
    }
  }

  /** Future f and the outcomes of its span are the same in both worlds. */
  ghost predicate SameRecord(w: World, v: World, f: Fid) {
    f in w.futs && f in v.futs && v.futs[f] == w.futs[f] && RecordOf(v, f) == RecordOf(w, f)
  }

  lemma FinishOnFuture(w: World, g: Fid, completed: bool, panicking: bool, failed: bool, f: Fid)
    requires g in w.futs && f in w.futs && FutOk(w, g) && FutOk(w, f)
    requires w.futs[f].kind.AsyncFn? && !w.futs[g].phase.Ended?
    ensures var v := Finish(w, g, completed, panicking, failed);
            if g != f then SameRecord(w, v, f)
            else
              && v.futs[f] == w.futs[f].(phase := Ended)
              && (w.futs[f].span.Some? ==>
                  var outcomes := if w.futs[f].kind.lifecycle then [LifecycleOutcome(completed, panicking)] else [];
                  RecordOf(v, f) == Record(outcomes, failed, true))
  {
  }

  lemma StartPollOnFuture(w: World, t: Tid, g: Fid, f: Fid)
    requires t in w.threads && g in w.futs && f in w.futs && FutOk(w, f) && FutOk(w, g)
    ensures var v := StartPoll(w, t, g);
            if g != f then SameRecord(w, v, f)
            else f in v.futs && v.futs[f].kind == w.futs[f].kind && v.futs[f].phase.Running?
  {
  }

  /** The polled future of the innermost frame is running. */
  lemma TopIsRunning(w: World, t: Tid)
    requires Inv(w) && Polling(w, t)
    ensures w.futs[Top(w.threads[t]).fut.value].phase.Running?
  {
    var n := |w.threads[t].frames| - 1;
    assert ThreadOk(w, t, w.threads[t]) && FrameOk(w, t, n, w.threads[t].frames[n]);
  }

  /** What one step means for one guarded future. */
  ghost predicate FutureStep(w: World, e: Event, v: World, f: Fid)
    requires f in w.futs && w.futs[f].kind.AsyncFn?
  {
    && f in v.futs && v.futs[f].kind == w.futs[f].kind
    && (w.futs[f].phase.Ended? ==> SameRecord(w, v, f) && !EndsIn(w, e, f))
    && (!w.futs[f].phase.Ended? ==>
        && (v.futs[f].phase.Ended? <==> EndsIn(w, e, f))
        && (v.futs[f].phase.Ended? ==> v.futs[f].span == w.futs[f].span)
        && (v.futs[f].phase.Ended? && w.futs[f].span.Some? ==>
            var outcome := LifecycleOutcome(e.PollReady?, e.t in w.threads && w.threads[e.t].panics > 0);
            RecordOf(v, f) == Record(if w.futs[f].kind.lifecycle then [outcome] else [],
                                     e.PollReady? && e.isErr && w.futs[f].kind.result, true)))
  }

  lemma PollReadyOnFuture(w: World, e: Event, f: Fid)
    requires Inv(w) && f in w.futs && w.futs[f].kind.AsyncFn?
    requires e.t in w.threads && e.PollReady?
    ensures FutureStep(w, e, Step(w, e), f)
  {
    hide ThreadOk, SpanOk, WithinTask;
    assert FutOk(w, f);
    var th := w.threads[e.t];
    if Polling(w, e.t) {
      var polled := Top(th).fut.value;
      assert FutOk(w, polled);
      TopIsRunning(w, e.t);
      var failed := e.isErr && w.futs[polled].kind.AsyncFn? && w.futs[polled].kind.result;
      FinishOnFuture(PopFrame(w, e.t), polled, true, th.panics > 0, failed, f);
      hide Inv, FutOk, Finish;
    }
  }

  lemma UnwindOnFuture(w: World, e: Event, f: Fid)
    requires Inv(w) && f in w.futs && w.futs[f].kind.AsyncFn?
    requires e.t in w.threads && e.Unwind?
    ensures FutureStep(w, e, Step(w, e), f)
  {
    hide ThreadOk, SpanOk, WithinTask;
    assert FutOk(w, f);
    var th := w.threads[e.t];
    if Polling(w, e.t) && th.panics > 0 {
      var polled := Top(th).fut.value;
      assert FutOk(w, polled);
      TopIsRunning(w, e.t);
      FinishOnFuture(PopFrame(w, e.t), polled, false, true, false, f);
      hide Inv, FutOk, Finish;
    }
  }

  lemma DropOnFuture(w: World, e: Event, f: Fid)
    requires Inv(w) && f in w.futs && w.futs[f].kind.AsyncFn?
    requires e.t in w.threads && e.Drop?
    ensures FutureStep(w, e, Step(w, e), f)
  {
    hide ThreadOk, SpanOk, WithinTask;
    assert FutOk(w, f);
    if Idle(w, e.fut) {
      assert FutOk(w, e.fut);
      FinishOnFuture(w, e.fut, false, w.threads[e.t].panics > 0, false, f);
    }
  }

  lemma PollStartOnFuture(w: World, e: Event, f: Fid)
    requires Inv(w) && f in w.futs && w.futs[f].kind.AsyncFn?
    requires e.t in w.threads && e.PollStart?
    ensures FutureStep(w, e, Step(w, e), f)
  {
    hide ThreadOk, SpanOk, WithinTask;
    assert FutOk(w, f);
    if Idle(w, e.fut) {
      assert FutOk(w, e.fut);
      StartPollOnFuture(w, e.t, e.fut, f);
      hide Inv, FutOk, StartPoll;
    }
  }

  lemma OtherStepOnFuture(w: World, e: Event, f: Fid)
    requires Inv(w) && f in w.futs && w.futs[f].kind.AsyncFn?
    requires e.t in w.threads && !e.PollReady? && !e.Unwind? && !e.Drop? && !e.PollStart?
    ensures FutureStep(w, e, Step(w, e), f)
  {
    hide ThreadOk, SpanOk, WithinTask, StartPoll, Finish;
    assert FutOk(w, f);
    if Polling(w, e.t) { TopIsRunning(w, e.t); }
  }

  lemma StepOnFuture(w: World, e: Event, f: Fid)
    requires Inv(w) && f in w.futs && w.futs[f].kind.AsyncFn?
    ensures FutureStep(w, e, Step(w, e), f)
  {
    if e.t in w.threads {
      hide Step;
      if e.PollReady? { PollReadyOnFuture(w, e, f); }
      else if e.Unwind? { UnwindOnFuture(w, e, f); }
      else if e.Drop? { DropOnFuture(w, e, f); }
      else if e.PollStart? { PollStartOnFuture(w, e, f); }
      else { OtherStepOnFuture(w, e, f); }
    }
  }

  /** Event number i of the run ended f, and no other event did. */
  ghost predicate EndedExactlyAt(w: World, es: seq<Event>, i: nat, f: Fid) {
    && i < |es| && EndsIn(Run(w, es[..i]), es[i], f)
    && forall j :: 0 <= j < |es| && j != i ==> !EndsIn(Run(w, es[..j]), es[j], f)
  }

  lemma PrefixOfPrefix(es: seq<Event>, i: nat)
    requires i < |es|
    ensures es[..|es| - 1][..i] == es[..i]
  {
  }

  /** An unfinished or unknown future was ended by no event so far. */
  lemma {:induction false} LiveFuturesNeverEnded(w: World, es: seq<Event>, f: Fid, j: nat)
    requires Init(w) && j < |es|
    requires f in Run(w, es).futs ==>
               Run(w, es).futs[f].kind.AsyncFn? && !Run(w, es).futs[f].phase.Ended?
    ensures !EndsIn(Run(w, es[..j]), es[j], f)
    decreases |es|
  {
    hide Step;
    var before := Run(w, es[..|es| - 1]);
    RunKeepsInv(w, es[..|es| - 1]);
    StepGrows(before, es[|es| - 1]);
    if f in before.futs { StepOnFuture(before, es[|es| - 1], f); }
    hide Inv, Grows;
    if j < |es| - 1 {
      PrefixOfPrefix(es, j);
      LiveFuturesNeverEnded(w, es[..|es| - 1], f, j);
    }
  }

  ghost predicate Started(w: World, f: Fid) { f in w.futs && w.futs[f].kind.AsyncFn? && w.futs[f].span.Some? }

  /** Event number i, and no other, ended f, and the span of f shows what that calls for. */
  ghost predicate Settled(w: World, es: seq<Event>, i: nat, f: Fid)
    requires Started(Run(w, es), f)
  {
    var v := Run(w, es);
    && EndedExactlyAt(w, es, i, f)
    && RecordOf(v, f) == Verdict(es, i, v.futs[f].kind.lifecycle, v.futs[f].kind.result)
  }

  /** The last event ended f. */
  lemma EndedByLastEvent(w: World, es: seq<Event>, f: Fid)
    requires Init(w) && es != []
    requires Started(Run(w, es), f) && Run(w, es).futs[f].phase.Ended?
    requires var before := Run(w, es[..|es| - 1]); f in before.futs && !before.futs[f].phase.Ended?
    ensures Settled(w, es, |es| - 1, f)
  {
    hide Step;
    var n := |es| - 1;
    var prefix := es[..n];
    var before := Run(w, prefix);
    RunKeepsInv(w, prefix);
    StepGrows(before, es[n]);
    StepOnFuture(before, es[n], f);
    hide Inv, Grows;
    ThreadsAreFixed(w, prefix);
    if es[n].t in w.threads { PanicDepthIsPanics(w, prefix, es[n].t); }
    forall j | 0 <= j < n ensures !EndsIn(Run(w, es[..j]), es[j], f) {
      PrefixOfPrefix(es, j);
      assert before.futs[f].kind.AsyncFn?;
      LiveFuturesNeverEnded(w, prefix, f, j);
    }
  }

  /** f had already ended. */
  lemma EndedEarlier(w: World, es: seq<Event>, f: Fid, i: nat)
    requires Init(w) && es != []
    requires Started(Run(w, es), f)
    requires var prefix := es[..|es| - 1];
             Started(Run(w, prefix), f) && Run(w, prefix).futs[f].phase.Ended? && Settled(w, prefix, i, f)
    ensures Settled(w, es, i, f)
  {
    var n := |es| - 1;
    RunKeepsInv(w, es[..n]);
    StepGrows(Run(w, es[..n]), es[n]);
    StepOnFuture(Run(w, es[..n]), es[n], f);
    forall j | 0 <= j < |es| && j != i ensures !EndsIn(Run(w, es[..j]), es[j], f) {
      if j < n {
        PrefixOfPrefix(es, j);
        assert !EndsIn(Run(w, es[..n][..j]), es[..n][j], f);
      }
    }
    PrefixOfPrefix(es, i);
  }

  /**
    Every instrumented future that was polled and has ended was ended by exactly one event, and its
    span has ended with what that event calls for: in error exactly when its body returned an Err;
    with a lifecycle guard one outcome, completed when the body returned, otherwise unwound or
    cancelled according to whether the thread was panicking; without a guard none.
   */
  lemma {:induction false} ExactlyOneOutcome(w: World, es: seq<Event>, f: Fid)
    requires Init(w)
    requires Started(Run(w, es), f) && Run(w, es).futs[f].phase.Ended?
    ensures exists i: nat :: Settled(w, es, i, f)
    decreases |es|
  {
    hide Step;
    var n := |es| - 1;
    var before := Run(w, es[..n]);
    RunKeepsInv(w, es[..n]);
    if f !in before.futs { NewFuturesAreUnpolled(before, es[n], f); }
    if before.futs[f].phase.Ended? {
      StepGrows(before, es[n]);
      StepOnFuture(before, es[n], f);
      ExactlyOneOutcome(w, es[..n], f);
      var i: nat :| Settled(w, es[..n], i, f);
      EndedEarlier(w, es, f, i);
    } else {
      EndedByLastEvent(w, es, f);
    }
  }

  lemma NewFuturesAreUnpolled(w: World, e: Event, f: Fid)
    requires Inv(w) && f in Step(w, e).futs && f !in w.futs
    ensures Step(w, e).futs[f].phase.Unpolled?
  {
  }

  lemma StepKeepsThreadSet(w: World, e: Event)
    ensures Step(w, e).threads.Keys == w.threads.Keys
  {
  }

  lemma {:induction false} ThreadsAreFixed(w: World, es: seq<Event>)
    ensures Run(w, es).threads.Keys == w.threads.Keys
    decreases |es|
  {
    hide Step;
    if es != [] {
      ThreadsAreFixed(w, es[..|es| - 1]);
      StepKeepsThreadSet(Run(w, es[..|es| - 1]), es[|es| - 1]);
    }
  }

  // ---------------------------------------------------------------------------
  // Contexts
  // ---------------------------------------------------------------------------

  /** `now` is `before`, or one frame shorter, or one frame longer. */
  predicate OneFrameApart(before: seq<Frame>, now: seq<Frame>) {
    || now == before
    || (before != [] && now == before[..|before| - 1])
    || (now != [] && now[..|now| - 1] == before)
  }

  /** A step pushes or pops at most one frame, and only on its own thread. */
  lemma StepMovesOneFrame(w: World, e: Event, t: Tid)
    requires t in w.threads
    ensures t in Step(w, e).threads
    ensures OneFrameApart(w.threads[t].frames, Step(w, e).threads[t].frames)
    ensures e.t != t ==> Step(w, e).threads[t] == w.threads[t]
  {
    hide RunningTask, LifecycleOutcome;
    var before, now := w.threads[t].frames, Step(w, e).threads[t].frames;
    if |now| > |before| { assert now[..|now| - 1] == before; }
  }

  function FramesAfter(w: World, es: seq<Event>, t: Tid): seq<Frame> {
    var v := Run(w, es);
    if t in v.threads then v.threads[t].frames else []
  }

  /** From event i on, thread t never went below the frames it had. */
  ghost predicate StaysAbove(w: World, es: seq<Event>, i: nat, t: Tid)
    requires i <= |es|
  {
    forall k :: i <= k <= |es| ==> |FramesAfter(w, es[..i], t)| <= |FramesAfter(w, es[..k], t)|
  }

  lemma {:induction false} LowerFramesKept(w: World, es: seq<Event>, i: nat, t: Tid)
    requires t in w.threads && i <= |es| && StaysAbove(w, es, i, t)
    ensures |FramesAfter(w, es[..i], t)| <= |FramesAfter(w, es, t)|
    ensures FramesAfter(w, es, t)[..|FramesAfter(w, es[..i], t)|] == FramesAfter(w, es[..i], t)
    decreases |es|
  {
    hide Step;
    assert es[..|es|] == es;
    if i < |es| {
      var prefix := es[..|es| - 1];
      assert forall k :: 0 <= k <= |prefix| ==> prefix[..k] == es[..k];
      LowerFramesKept(w, prefix, i, t);
      ThreadsAreFixed(w, prefix);
      StepMovesOneFrame(Run(w, prefix), es[|es| - 1], t);
      var n := |FramesAfter(w, es[..i], t)|;
      assert FramesAfter(w, es, t)[..n] == FramesAfter(w, prefix, t)[..n];
    }
  }

  lemma {:induction false} CurrentFollowsFrames(w: World, es: seq<Event>, t: Tid)
    requires Init(w) && t in w.threads
    ensures t in Run(w, es).threads
    ensures Run(w, es).threads[t].current == CxAt(FramesAfter(w, es, t), |FramesAfter(w, es, t)|)
  {
    RunKeepsInv(w, es);
    ThreadsAreFixed(w, es);
    assert ThreadOk(Run(w, es), t, Run(w, es).threads[t]);
  }

  /**
    Each poll restores the thread's context. Let a thread be back, after any number of other
    events, at the nesting level it had when event i started a poll, without having gone below
    it: the frames are those of then, and so is the current context.
   */
  lemma PollsRestoreContext(w: World, es: seq<Event>, i: nat, t: Tid)
    requires Init(w) && t in w.threads && i <= |es| && StaysAbove(w, es, i, t)
    requires |FramesAfter(w, es, t)| == |FramesAfter(w, es[..i], t)|
    ensures t in Run(w, es[..i]).threads && t in Run(w, es).threads
    ensures FramesAfter(w, es, t) == FramesAfter(w, es[..i], t)
    ensures Run(w, es).threads[t].current == Run(w, es[..i]).threads[t].current
  {
    hide Step;
    LowerFramesKept(w, es, i, t);
    CurrentFollowsFrames(w, es, t);
    CurrentFollowsFrames(w, es[..i], t);
  }

  // ---------------------------------------------------------------------------
  // Task dispatch
  // ---------------------------------------------------------------------------

  /** The first context met, going up from span s, that is not a span of the same task. */
  function LeaveTask(spans: seq<Span>, s: nat): Ctx
    requires s < |spans|
    decreases s
  {
    var p := spans[s].parent;
    if p.Some? && p.value < s && spans[p.value].home == spans[s].home then LeaveTask(spans, p.value) else p
  }

  predicate IsAncestor(spans: seq<Span>, a: nat, s: nat)
    requires s < |spans|
    decreases s
  {
    a == s || (spans[s].parent.Some? && spans[s].parent.value < s && IsAncestor(spans, a, spans[s].parent.value))
  }

  /** Spans that work for a task are rooted in the context captured when it was dispatched. */
  lemma {:induction false} TaskSpansLeaveToDispatch(w: World, s: nat, task: Fid)
    requires Inv(w) && s < |w.spans| && w.spans[s].home == Some(task)
    ensures task in w.futs && w.futs[task].kind.Task?
    ensures LeaveTask(w.spans, s) == w.futs[task].kind.captured
    ensures w.futs[task].kind.captured.Some? ==> IsAncestor(w.spans, w.futs[task].kind.captured.value, s)
    decreases s
  {
    assert SpanOk(w, s);
    assert FutOk(w, task);
    var p := w.spans[s].parent;
    if p != w.futs[task].kind.captured { TaskSpansLeaveToDispatch(w, p.value, task); }
  }

  lemma GrowsTransitive(u: World, v: World, w: World)
    requires Grows(u, v) && Grows(v, w)
    ensures Grows(u, w)
  {
  }

  lemma {:induction false} RunGrows(w: World, es: seq<Event>, i: nat)
    requires Init(w) && i <= |es|
    ensures Grows(Run(w, es[..i]), Run(w, es))
    decreases |es|
  {
    if i == |es| {
      assert es[..i] == es;
    } else {
      RunGrows(w, es[..|es| - 1], i);
      assert es[..|es| - 1][..i] == es[..i];
      RunKeepsInv(w, es[..|es| - 1]);
      StepGrows(Run(w, es[..|es| - 1]), es[|es| - 1]);
      GrowsTransitive(Run(w, es[..i]), Run(w, es[..|es| - 1]), Run(w, es));
    }
  }

  /** A future that was started inside one task is resumed only there. */
  predicate StaysHome(w: World, e: Event) {
    e.PollStart? && e.t in w.threads && Idle(w, e.fut) && w.futs[e.fut].kind.AsyncFn? && w.futs[e.fut].phase.Suspended?
    ==> RunningTask(w, w.threads[e.t].frames) == w.futs[e.fut].home
  }

  ghost predicate AllStayHome(w: World, es: seq<Event>) {
    forall i :: 0 <= i < |es| ==> StaysHome(Run(w, es[..i]), es[i])
  }

  function HomeAt(frames: seq<Frame>, k: nat): Option<Fid>
    requires k <= |frames|
  {
    if k == 0 then None else frames[k - 1].home
  }

  /** Every frame works for the spawned task whose poll it runs in, and so does every span. */
  ghost predicate AtHome(w: World) {
    && (forall t :: t in w.threads ==> FramesAtHome(w, w.threads[t].frames))
    && (forall s :: 0 <= s < |w.spans| ==> w.spans[s].opener == w.spans[s].home)
  }

  ghost predicate PollsKnown(w: World, frames: seq<Frame>) {
    forall k :: 0 <= k < |frames| ==> frames[k].fut.Some? ==> frames[k].fut.value in w.futs
  }

  lemma {:induction false} RunningTaskIsStable(w: World, v: World, frames: seq<Frame>)
    requires Grows(w, v) && PollsKnown(w, frames)
    ensures RunningTask(v, frames) == RunningTask(w, frames)
    decreases |frames|
  {
    if frames != [] { RunningTaskIsStable(w, v, frames[..|frames| - 1]); }
  }

  /** A span opened in this step names the spawned task its thread works for and the one it runs in. */
  lemma NewSpanShape(w: World, e: Event)
    requires Inv(w) && e.t in w.threads
    ensures var v := Step(w, e);
            && |v.spans| <= |w.spans| + 1
            && (|v.spans| > |w.spans| ==>
                && v.spans[|w.spans|].opener == RunningTask(w, w.threads[e.t].frames)
                && v.spans[|w.spans|].home == HomeOf(w.threads[e.t]))
  {
    hide ThreadOk, SpanOk, FutOk, RunningTask;
  }

  /** A frame pushed in this step is a task's own poll, or works for the spawned task around it. */
  lemma NewFrameShape(w: World, e: Event)
    requires Inv(w) && StaysHome(w, e) && e.t in w.threads
    requires e.t in Step(w, e).threads && |Step(w, e).threads[e.t].frames| > |w.threads[e.t].frames|
    ensures var v := Step(w, e);
            var fr := v.threads[e.t].frames[|w.threads[e.t].frames|];
            if fr.fut.Some? && fr.fut.value in v.futs && v.futs[fr.fut.value].kind.Task? then fr.home == fr.fut
            else fr.home == HomeOf(w.threads[e.t]) || fr.home == RunningTask(w, w.threads[e.t].frames)
  {
    hide ThreadOk, SpanOk, FutOk, RunningTask, LifecycleOutcome;
  }

  ghost predicate FramesAtHome(w: World, frames: seq<Frame>) {
    forall k :: 0 <= k <= |frames| ==> HomeAt(frames, k) == RunningTask(w, frames[..k])
  }

  lemma FrameStaysAtHome(w: World, v: World, before: seq<Frame>, now: seq<Frame>, k: nat)
    requires Grows(w, v) && FramesAtHome(w, before) && PollsKnown(w, before)
    requires k <= |before| && k <= |now| && now[..k] == before[..k]
    ensures HomeAt(now, k) == RunningTask(v, now[..k])
  {
    hide Grows;
    assert PollsKnown(w, before[..k]);
    RunningTaskIsStable(w, v, before[..k]);
    assert HomeAt(before, k) == RunningTask(w, before[..k]);
    assert k > 0 ==> now[k - 1] == now[..k][k - 1] == before[k - 1];
  }

  lemma NewFrameAtHome(w: World, e: Event)
    requires Inv(w) && AtHome(w) && StaysHome(w, e) && e.t in w.threads
    requires e.t in Step(w, e).threads && |Step(w, e).threads[e.t].frames| > |w.threads[e.t].frames|
    ensures var now := Step(w, e).threads[e.t].frames;
            HomeAt(now, |now|) == RunningTask(Step(w, e), now)
  {
    hide Step;
    var v := Step(w, e);
    var before := w.threads[e.t].frames;
    var now := v.threads[e.t].frames;
    StepGrows(w, e);
    StepMovesOneFrame(w, e, e.t);
    NewFrameShape(w, e);
    FramePollsKnown(w, e.t);
    hide Grows, Inv, StaysHome, PollsKnown;
    RunningTaskIsStable(w, v, before);
    CurrentHome(w, e.t);
    assert now[..|now| - 1] == before;
  }

  lemma CurrentHome(w: World, t: Tid)
    requires AtHome(w) && t in w.threads
    ensures HomeOf(w.threads[t]) == RunningTask(w, w.threads[t].frames)
  {
    hide RunningTask;
    var frames := w.threads[t].frames;
    assert frames[..|frames|] == frames;
    assert FramesAtHome(w, frames);
    assert HomeAt(frames, |frames|) == RunningTask(w, frames[..|frames|]);
  }

  lemma FramePollsKnown(w: World, t: Tid)
    requires Inv(w) && t in w.threads
    ensures PollsKnown(w, w.threads[t].frames)
  {
    var frames := w.threads[t].frames;
    assert ThreadOk(w, t, w.threads[t]);
    forall i | 0 <= i < |frames| ensures frames[i].fut.Some? ==> frames[i].fut.value in w.futs {
      assert FrameOk(w, t, i, frames[i]);
    }
  }

  lemma ThreadStaysAtHome(w: World, e: Event, t: Tid)
    requires Inv(w) && AtHome(w) && StaysHome(w, e) && e.t in w.threads && t in w.threads
    ensures t in Step(w, e).threads && FramesAtHome(Step(w, e), Step(w, e).threads[t].frames)
  {
    hide Step, Grows, Inv, RunningTask, StaysHome;
    var v := Step(w, e);
    StepGrows(w, e);
    StepMovesOneFrame(w, e, t);
    FramePollsKnown(w, t);
    var before := w.threads[t].frames;
    var now := v.threads[t].frames;
    if |now| > |before| { NewFrameAtHome(w, e); }
    assert now[..|now|] == now;
    forall k | 0 <= k <= |now| ensures HomeAt(now, k) == RunningTask(v, now[..k]) {
      if k <= |before| {
        assert now[..k] == before[..k];
        FrameStaysAtHome(w, v, before, now, k);
      }
    }
  }

  lemma SpansStayAtHome(w: World, e: Event)
    requires Inv(w) && AtHome(w) && e.t in w.threads
    ensures forall s :: 0 <= s < |Step(w, e).spans| ==> Step(w, e).spans[s].opener == Step(w, e).spans[s].home
  {
    hide Step, RunningTask;
    StepGrows(w, e);
    NewSpanShape(w, e);
    CurrentHome(w, e.t);
    hide Inv;
  }

  lemma StepKeepsAtHome(w: World, e: Event)
    requires Inv(w) && AtHome(w) && StaysHome(w, e)
    ensures AtHome(Step(w, e))
  {
    hide Step;
    if e.t in w.threads {
      StepKeepsThreadSet(w, e);
      SpansStayAtHome(w, e);
      forall t | t in w.threads ensures FramesAtHome(Step(w, e), Step(w, e).threads[t].frames) {
        ThreadStaysAtHome(w, e, t);
      }
    } else {
      DisabledStep(w, e);
    }
  }

  lemma DisabledStep(w: World, e: Event)
    requires e.t !in w.threads
    ensures Step(w, e) == w
  {
  }

  lemma {:induction false} RunKeepsAtHome(w: World, es: seq<Event>)
    requires Init(w) && AllStayHome(w, es)
    ensures AtHome(Run(w, es))
    decreases |es|
  {
    if es != [] {
      var prefix := es[..|es| - 1];
      forall i | 0 <= i < |prefix| ensures StaysHome(Run(w, prefix[..i]), prefix[i]) {
        PrefixOfPrefix(es, i);
        assert StaysHome(Run(w, es[..i]), es[i]);
      }
      RunKeepsAtHome(w, prefix);
      RunKeepsInv(w, prefix);
      StepKeepsAtHome(Run(w, prefix), es[|es| - 1]);
    }
  }

  /** A dispatched task keeps the context that was current on the dispatching thread. */
  lemma {:induction false} DispatchIsRemembered(w: World, es: seq<Event>, i: nat, t: Tid, task: Fid)
    requires Init(w) && i < |es|
    requires es[i] == Dispatch(t, task) && t in w.threads && task !in Run(w, es[..i]).futs
    ensures t in Run(w, es[..i]).threads && task in Run(w, es).futs
    ensures Run(w, es).futs[task].kind == Task(Run(w, es[..i]).threads[t].current)
  {
    ThreadsAreFixed(w, es[..i]);
    assert es[..i + 1][..i] == es[..i];
    assert Run(w, es[..i + 1]) == Step(Run(w, es[..i]), es[i]);
    assert Run(w, es[..i + 1]).futs[task].kind == Task(Run(w, es[..i]).threads[t].current);
    hide Step;
    RunGrows(w, es, i + 1);
  }

  /**
    When started futures stay in their task, more is true of a span opened in a dispatched task: the
    context current at dispatch is the first context above the spans of that task.
   */
  lemma {:induction false} DispatchContextIsNearest(w: World, es: seq<Event>, i: nat, t: Tid, task: Fid, s: nat)
    requires Init(w) && AllStayHome(w, es) && i < |es|
    requires es[i] == Dispatch(t, task) && t in w.threads && task !in Run(w, es[..i]).futs
    requires s < |Run(w, es).spans| && Run(w, es).spans[s].opener == Some(task)
    ensures t in Run(w, es[..i]).threads
    ensures var cx := Run(w, es[..i]).threads[t].current;
            && LeaveTask(Run(w, es).spans, s) == cx
            && (cx.Some? ==> IsAncestor(Run(w, es).spans, cx.value, s))
  {
    hide Step, Inv, FramesAtHome, RunningTask;
    DispatchIsRemembered(w, es, i, t, task);
    RunKeepsInv(w, es);
    RunKeepsAtHome(w, es);
    TaskSpansLeaveToDispatch(Run(w, es), s, task);
  }
}
