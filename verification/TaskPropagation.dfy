/**
  Context propagation into dispatched tasks, with its exact condition
  (cargo-instrument/src/transform.rs:370-392, cargo-instrument/src/ast.rs:1155-1163).
 */
module TaskPropagation {
  import opened Basics
  import opened AsyncRuntime

  // A spawn site is rewritten so that the spawned task runs in the context current at dispatch. A future
  // of the application that was started earlier brings its own context along when it is resumed inside a
  // task; propagation holds exactly as long as that context lies below the dispatch context of the
  // spawned task around it.

  /** The context captured when the spawned task was dispatched. */
  function CapturedBy(w: World, task: Fid): Ctx {
    if task in w.futs && w.futs[task].kind.Task? then w.futs[task].kind.captured else None
  }

  /** cx is base or one of its descendants; with no base there is nothing to be below. */
  predicate Below(spans: seq<Span>, cx: Ctx, base: Ctx) {
    base.Some? ==> cx.Some? && cx.value < |spans| && IsAncestor(spans, base.value, cx.value)
  }

  /** Is e the resumption of a suspended instrumented future? */
  predicate Resumes(w: World, e: Event) {
    && e.PollStart? && e.t in w.threads && Idle(w, e.fut)
    && w.futs[e.fut].kind.AsyncFn? && w.futs[e.fut].phase.Suspended?
  }

  /** The guard: a future resumed inside a task has its span below what that one was dispatched under. */
  predicate ResumesBelow(w: World, e: Event) {
    Resumes(w, e) ==>
      match RunningTask(w, w.threads[e.t].frames)
      case None => true
      case Some(task) => Below(w.spans, w.futs[e.fut].span, CapturedBy(w, task))
  }

  ghost predicate AllResumeBelow(w: World, es: seq<Event>) {
    forall i :: 0 <= i < |es| ==> ResumesBelow(Run(w, es[..i]), es[i])
  }

  predicate SpanPropagated(w: World, s: nat)
    requires s < |w.spans|
  {
    match w.spans[s].opener
    case None => true
    case Some(task) => task in w.futs && Below(w.spans, w.spans[s].parent, CapturedBy(w, task))
  }

  /** Every span opened inside a task has an ancestor in the context that one was dispatched under. */
  ghost predicate Propagated(w: World) { forall s :: 0 <= s < |w.spans| ==> SpanPropagated(w, s) }

  /** With only the first k frames on the thread, the context is below that of the running task. */
  predicate FrameBelow(w: World, frames: seq<Frame>, k: nat)
    requires k <= |frames|
  {
    match RunningTask(w, frames[..k])
    case None => true
    case Some(task) => Below(w.spans, CxAt(frames, k), CapturedBy(w, task))
  }

  ghost predicate FramesBelow(w: World, frames: seq<Frame>) {
    forall k :: 0 <= k <= |frames| ==> FrameBelow(w, frames, k)
  }

  ghost predicate AllBelow(w: World) {
    Propagated(w) && forall t :: t in w.threads ==> FramesBelow(w, w.threads[t].frames)
  }

  // ---------------------------------------------------------------------------
  // Stability
  // ---------------------------------------------------------------------------

  /** Opening spans does not change who is an ancestor of whom. */
  lemma {:induction false} AncestorsAreStable(w: World, v: World, a: nat, s: nat)
    requires Grows(w, v) && s < |w.spans|
    ensures IsAncestor(v.spans, a, s) <==> IsAncestor(w.spans, a, s)
    decreases s
  {
    assert v.spans[s].parent == w.spans[s].parent;
    var p := w.spans[s].parent;
    if p.Some? && p.value < s { AncestorsAreStable(w, v, a, p.value); }
  }

  lemma BelowIsStable(w: World, v: World, cx: Ctx, base: Ctx)
    requires Grows(w, v) && Below(w.spans, cx, base)
    ensures Below(v.spans, cx, base)
  {
    hide IsAncestor;
    if base.Some? { AncestorsAreStable(w, v, base.value, cx.value); }
  }

  lemma {:induction false} RunningTaskIsTask(w: World, frames: seq<Frame>)
    ensures var task := RunningTask(w, frames); task.Some? ==> task.value in w.futs && w.futs[task.value].kind.Task?
    decreases |frames|
  {
    if frames != [] { RunningTaskIsTask(w, frames[..|frames| - 1]); }
  }

  lemma KeptFrameStaysBelow(w: World, v: World, before: seq<Frame>, now: seq<Frame>, k: nat)
    requires Grows(w, v) && PollsKnown(w, before) && k <= |before| && k <= |now| && now[..k] == before[..k]
    requires FrameBelow(w, before, k)
    ensures FrameBelow(v, now, k)
  {
    hide IsAncestor, RunningTask;
    assert PollsKnown(w, before[..k]);
    RunningTaskIsStable(w, v, before[..k]);
    RunningTaskIsTask(w, before[..k]);
    assert k > 0 ==> now[k - 1] == now[..k][k - 1] == before[k - 1];
    var task := RunningTask(w, before[..k]);
    if task.Some? { BelowIsStable(w, v, CxAt(before, k), CapturedBy(w, task.value)); }
  }

  lemma KeptSpanStaysPropagated(w: World, v: World, s: nat)
    requires Grows(w, v) && s < |w.spans| && SpanPropagated(w, s)
    ensures SpanPropagated(v, s)
  {
    hide IsAncestor;
    var task := w.spans[s].opener;
    if task.Some? { BelowIsStable(w, v, w.spans[s].parent, CapturedBy(w, task.value)); }
  }

  // ---------------------------------------------------------------------------
  // One event
  // ---------------------------------------------------------------------------

  /** The context in force is below that of the running task. */
  lemma CurrentIsBelow(w: World, t: Tid)
    requires Inv(w) && AllBelow(w) && t in w.threads
    ensures match RunningTask(w, w.threads[t].frames)
            case None => true
            case Some(task) => Below(w.spans, w.threads[t].current, CapturedBy(w, task))
  {
    hide IsAncestor, RunningTask, FrameOk;
    var frames := w.threads[t].frames;
    assert frames[..|frames|] == frames;
    assert ThreadOk(w, t, w.threads[t]);
    assert FramesBelow(w, frames) && FrameBelow(w, frames, |frames|);
  }

  /** A span opened in this step is the child of the thread's current context. */
  lemma NewSpanParent(w: World, e: Event)
    requires Inv(w) && e.t in w.threads && |Step(w, e).spans| > |w.spans|
    ensures var v := Step(w, e);
            && |v.spans| == |w.spans| + 1
            && v.spans[|w.spans|].parent == w.threads[e.t].current
            && v.spans[|w.spans|].opener == RunningTask(w, w.threads[e.t].frames)
  {
    hide ThreadOk, SpanOk, FutOk, RunningTask;
  }

  lemma NewSpanIsPropagated(w: World, e: Event)
    requires Inv(w) && AllBelow(w) && e.t in w.threads && |Step(w, e).spans| > |w.spans|
    ensures |Step(w, e).spans| == |w.spans| + 1 && SpanPropagated(Step(w, e), |w.spans|)
  {
    hide Step, Inv, IsAncestor, RunningTask, AllBelow;
    var frames := w.threads[e.t].frames;
    StepGrows(w, e);
    NewSpanParent(w, e);
    CurrentIsBelow(w, e.t);
    RunningTaskIsTask(w, frames);
    var task := RunningTask(w, frames);
    if task.Some? { BelowIsStable(w, Step(w, e), w.threads[e.t].current, CapturedBy(w, task.value)); }
  }

  /** What a pushed frame runs under: a task's own context, a new span, or the span of a resumed future. */
  lemma PushedFrame(w: World, e: Event)
    requires Inv(w) && e.t in w.threads
    requires e.t in Step(w, e).threads && |Step(w, e).threads[e.t].frames| > |w.threads[e.t].frames|
    ensures var v := Step(w, e);
            var before := w.threads[e.t].frames;
            var fr := v.threads[e.t].frames[|before|];
            && v.threads[e.t].frames == before + [fr]
            && (|| (e.PollStart? && fr.fut == Some(e.fut) && e.fut in w.futs && w.futs[e.fut].kind.Task?
                    && fr.cx == w.futs[e.fut].kind.captured)
                || (|v.spans| == |w.spans| + 1 && fr.cx == Some(|w.spans|)
                    && (fr.fut.Some? ==> fr.fut.value in w.futs && w.futs[fr.fut.value].kind.AsyncFn?))
                || (Resumes(w, e) && fr.fut == Some(e.fut) && fr.cx == w.futs[e.fut].span))
  {
    hide ThreadOk, SpanOk, FutOk, RunningTask, LifecycleOutcome;
  }

  lemma TopRunsTask(v: World, before: seq<Frame>, fr: Frame)
    ensures RunningTask(v, before + [fr]) ==
            if fr.fut.Some? && fr.fut.value in v.futs && v.futs[fr.fut.value].kind.Task? then fr.fut
            else RunningTask(v, before)
  {
    assert (before + [fr])[..|before|] == before;
  }

  lemma ItselfIsBelow(spans: seq<Span>, cx: Ctx)
    requires cx.Some? ==> cx.value < |spans|
    ensures Below(spans, cx, cx)
  {
  }

  lemma ChildIsBelow(spans: seq<Span>, s: nat, base: Ctx)
    requires s < |spans| && Below(spans, spans[s].parent, base)
    requires spans[s].parent.Some? ==> spans[s].parent.value < s
    ensures Below(spans, Some(s), base)
  {
  }

  lemma NewFrameIsBelow(w: World, e: Event)
    requires Inv(w) && Inv(Step(w, e)) && AllBelow(w) && ResumesBelow(w, e) && e.t in w.threads
    requires e.t in Step(w, e).threads && |Step(w, e).threads[e.t].frames| > |w.threads[e.t].frames|
    ensures var now := Step(w, e).threads[e.t].frames; FrameBelow(Step(w, e), now, |now|)
  {
    hide Step, IsAncestor, RunningTask, AllBelow, ThreadOk, FutOk, SpanOk;
    var v := Step(w, e);
    var before := w.threads[e.t].frames;
    var now := v.threads[e.t].frames;
    StepGrows(w, e);
    PushedFrame(w, e);
    var fr := now[|before|];
    TopRunsTask(v, before, fr);
    FramePollsKnown(w, e.t);
    RunningTaskIsStable(w, v, before);
    RunningTaskIsTask(w, before);
    assert now[..|now|] == now;
    if e.PollStart? && fr.fut == Some(e.fut) && e.fut in w.futs && w.futs[e.fut].kind.Task? {
      OwnContextIsBelow(w, v, e.fut);
    } else if |v.spans| == |w.spans| + 1 && fr.cx == Some(|w.spans|) {
      NewSpanIsPropagated(w, e);
      NewSpanParent(w, e);
      OpenedIsBelow(w, v, RunningTask(w, before));
    } else {
      var task := RunningTask(w, before);
      if task.Some? { BelowIsStable(w, v, w.futs[e.fut].span, CapturedBy(w, task.value)); }
    }
  }

  lemma OwnContextIsBelow(w: World, v: World, task: Fid)
    requires Inv(v) && Grows(w, v) && task in w.futs && w.futs[task].kind.Task?
    ensures Below(v.spans, w.futs[task].kind.captured, CapturedBy(v, task))
  {
    hide IsAncestor, ThreadOk, SpanOk;
    assert FutOk(v, task);
    ItselfIsBelow(v.spans, w.futs[task].kind.captured);
  }

  lemma OpenedIsBelow(w: World, v: World, task: Option<Fid>)
    requires Inv(v) && |v.spans| == |w.spans| + 1 && SpanPropagated(v, |w.spans|) && v.spans[|w.spans|].opener == task
    ensures task.Some? ==> Below(v.spans, Some(|w.spans|), CapturedBy(v, task.value))
  {
    hide IsAncestor, ThreadOk, FutOk;
    assert SpanOk(v, |w.spans|);
    if task.Some? { ChildIsBelow(v.spans, |w.spans|, CapturedBy(v, task.value)); }
  }

  lemma ThreadStaysBelow(w: World, e: Event, t: Tid)
    requires Inv(w) && Inv(Step(w, e)) && AllBelow(w) && ResumesBelow(w, e) && e.t in w.threads && t in w.threads
    ensures t in Step(w, e).threads && FramesBelow(Step(w, e), Step(w, e).threads[t].frames)
  {
    hide Step, Grows, Inv, RunningTask, ResumesBelow, FrameBelow, Propagated;
    var v := Step(w, e);
    StepGrows(w, e);
    StepMovesOneFrame(w, e, t);
    FramePollsKnown(w, t);
    var before := w.threads[t].frames;
    var now := v.threads[t].frames;
    if |now| > |before| { NewFrameIsBelow(w, e); }
    assert FramesBelow(w, before);
    forall k | 0 <= k <= |now| ensures FrameBelow(v, now, k) {
      if k <= |before| {
        assert now[..k] == before[..k];
        KeptFrameStaysBelow(w, v, before, now, k);
      }
    }
  }

  lemma StepKeepsBelow(w: World, e: Event)
    requires Inv(w) && AllBelow(w) && ResumesBelow(w, e)
    ensures AllBelow(Step(w, e))
  {
    hide Step, Inv, ResumesBelow, SpanPropagated, FramesBelow;
    if e.t in w.threads {
      var v := Step(w, e);
      StepKeepsInv(w, e);
      StepKeepsThreadSet(w, e);
      StepGrows(w, e);
      forall s | 0 <= s < |v.spans| ensures SpanPropagated(v, s) {
        if s < |w.spans| { KeptSpanStaysPropagated(w, v, s); } else { NewSpanIsPropagated(w, e); }
      }
      forall t | t in w.threads ensures FramesBelow(v, v.threads[t].frames) { ThreadStaysBelow(w, e, t); }
    } else {
      DisabledStep(w, e);
    }
  }

  lemma InitIsBelow(w: World)
    requires Init(w)
    ensures AllBelow(w)
  {
  }

  lemma {:induction false} RunKeepsBelow(w: World, es: seq<Event>)
    requires Init(w) && AllResumeBelow(w, es)
    ensures AllBelow(Run(w, es))
    decreases |es|
  {
    hide Step, AllBelow, ResumesBelow, Init;
    if es == [] {
      InitIsBelow(w);
    } else {
      var prefix := es[..|es| - 1];
      forall i | 0 <= i < |prefix| ensures ResumesBelow(Run(w, prefix[..i]), prefix[i]) {
        PrefixOfPrefix(es, i);
        assert ResumesBelow(Run(w, es[..i]), es[i]);
      }
      RunKeepsBelow(w, prefix);
      RunKeepsInv(w, prefix);
      StepKeepsBelow(Run(w, prefix), es[|es| - 1]);
    }
  }

  // ---------------------------------------------------------------------------
  // The theorem and its converse
  // ---------------------------------------------------------------------------

  lemma PropagatedIsAncestor(w: World, s: nat, task: Fid)
    requires Inv(w) && s < |w.spans| && SpanPropagated(w, s) && w.spans[s].opener == Some(task)
    ensures CapturedBy(w, task).Some? ==>
              CapturedBy(w, task).value < s && IsAncestor(w.spans, CapturedBy(w, task).value, s)
  {
    hide ThreadOk, FutOk;
    assert SpanOk(w, s);
    var cx := CapturedBy(w, task);
    if cx.Some? { AncestorIsOlder(w, cx.value, w.spans[s].parent.value); }
  }

  lemma {:induction false} AncestorIsOlder(w: World, a: nat, s: nat)
    requires s < |w.spans| && IsAncestor(w.spans, a, s)
    ensures a <= s
    decreases s
  {
    if a != s { AncestorIsOlder(w, a, w.spans[s].parent.value); }
  }

  /**
    Task propagation. Let event i dispatch a task from a rewritten spawn site. Every span later
    opened inside that task, on whatever threads and between whatever other polls, has the
    context current at dispatch as a proper ancestor.
   */
  lemma {:induction false} DispatchContextIsAncestor(w: World, es: seq<Event>, i: nat, t: Tid, task: Fid, s: nat)
    requires Init(w) && AllResumeBelow(w, es) && i < |es|
    requires es[i] == Dispatch(t, task) && t in w.threads && task !in Run(w, es[..i]).futs
    requires s < |Run(w, es).spans| && Run(w, es).spans[s].opener == Some(task)
    ensures t in Run(w, es[..i]).threads
    ensures var cx := Run(w, es[..i]).threads[t].current;
            cx.Some? ==> cx.value < s && IsAncestor(Run(w, es).spans, cx.value, s)
  {
    hide Step, Inv, IsAncestor, SpanPropagated, FramesBelow, AllResumeBelow;
    DispatchIsRemembered(w, es, i, t, task);
    RunKeepsInv(w, es);
    RunKeepsBelow(w, es);
    assert SpanPropagated(Run(w, es), s);
    PropagatedIsAncestor(Run(w, es), s, task);
  }

  lemma ResumedThread(w: World, e: Event)
    requires Inv(w) && Resumes(w, e)
    ensures var v := Step(w, e);
            && v.spans == w.spans && e.t in v.threads
            && v.threads[e.t].current == w.futs[e.fut].span
            && exists fr :: v.threads[e.t].frames == w.threads[e.t].frames + [fr] && fr.fut == Some(e.fut)
  {
    hide ThreadOk, SpanOk, FutOk, RunningTask;
    var fr := Frame(Some(e.fut), w.futs[e.fut].span, w.threads[e.t].current, w.futs[e.fut].home);
    assert Step(w, e).threads[e.t].frames == w.threads[e.t].frames + [fr];
  }

  /**
    The guard cannot be relaxed: in any consistent world, a resumption that breaks it makes the very
    next instrumented call on that thread open a span outside the dispatch context of its task.
   */
  lemma {:induction false} BrokenGuardEscapes(w: World, e: Event)
    requires Inv(w) && !ResumesBelow(w, e)
    ensures var v := Step(Step(w, e), SyncEnter(e.t));
            && |v.spans| == |w.spans| + 1
            && v.spans[|w.spans|].opener == RunningTask(w, w.threads[e.t].frames)
            && !SpanPropagated(v, |w.spans|)
  {
    hide Step, IsAncestor, RunningTask, ThreadOk, SpanOk;
    var u := Step(w, e);
    var frames := w.threads[e.t].frames;
    StepKeepsInv(w, e);
    StepGrows(w, e);
    ResumedThread(w, e);
    var fr :| u.threads[e.t].frames == frames + [fr] && fr.fut == Some(e.fut);
    FramePollsKnown(w, e.t);
    RunningTaskIsStable(w, u, frames);
    RunningTaskIsTask(w, frames);
    TopRunsTask(u, frames, fr);
    StepGrows(u, SyncEnter(e.t));
    EnterOpens(u, e.t);
    NewSpanParent(u, SyncEnter(e.t));
    EscapesBelow(u, Step(u, SyncEnter(e.t)), RunningTask(w, frames).value, w.futs[e.fut].span);
  }

  lemma EnterOpens(w: World, t: Tid)
    requires t in w.threads
    ensures |Step(w, SyncEnter(t)).spans| == |w.spans| + 1
  {
    hide RunningTask;
  }

  lemma EscapesBelow(u: World, v: World, task: Fid, cx: Ctx)
    requires Inv(u) && Grows(u, v) && |v.spans| == |u.spans| + 1 && task in u.futs && u.futs[task].kind.Task?
    requires v.spans[|u.spans|].parent == cx && v.spans[|u.spans|].opener == Some(task)
    requires !Below(u.spans, cx, CapturedBy(u, task))
    requires cx.Some? ==> cx.value < |u.spans|
    ensures !SpanPropagated(v, |u.spans|)
  {
    hide IsAncestor, ThreadOk, SpanOk, FutOk;
    if cx.Some? { AncestorsAreStable(u, v, CapturedBy(u, task).value, cx.value); }
  }

  /** After every prefix of the run, whichever thread makes an instrumented call next, all spans are propagated. */
  ghost predicate AlwaysPropagates(w: World, es: seq<Event>) {
    forall k: nat, t :: k <= |es| && t in w.threads ==> Propagated(Step(Run(w, es[..k]), SyncEnter(t)))
  }

  lemma PrefixResumesBelow(w: World, es: seq<Event>, k: nat)
    requires AllResumeBelow(w, es) && k <= |es|
    ensures AllResumeBelow(w, es[..k])
  {
    hide ResumesBelow, Step;
    forall i | 0 <= i < k ensures ResumesBelow(Run(w, es[..k][..i]), es[..k][i]) {
      assert es[..k][..i] == es[..i];
      assert ResumesBelow(Run(w, es[..i]), es[i]);
    }
  }

  /** Propagation holds along a run exactly when every resumption in it meets the guard. */
  lemma PropagationExactly(w: World, es: seq<Event>)
    requires Init(w)
    ensures AllResumeBelow(w, es) <==> AlwaysPropagates(w, es)
  {
    hide Step, Inv, ResumesBelow, Propagated, Init, FramesBelow;
    if AllResumeBelow(w, es) {
      forall k: nat, t | k <= |es| && t in w.threads ensures Propagated(Step(Run(w, es[..k]), SyncEnter(t))) {
        PrefixResumesBelow(w, es, k);
        RunKeepsBelow(w, es[..k]);
        RunKeepsInv(w, es[..k]);
        CallsAreGuarded(Run(w, es[..k]), t);
        StepKeepsBelow(Run(w, es[..k]), SyncEnter(t));
      }
    } else {
      var i :| 0 <= i < |es| && !ResumesBelow(Run(w, es[..i]), es[i]);
      RunKeepsInv(w, es[..i]);
      ThreadsAreFixed(w, es[..i]);
      BrokenThread(Run(w, es[..i]), es[i]);
      BrokenGuardBreaks(Run(w, es[..i]), es[i]);
      assert es[..i + 1][..i] == es[..i];
      assert Run(w, es[..i + 1]) == Step(Run(w, es[..i]), es[i]);
    }
  }

  lemma CallsAreGuarded(w: World, t: Tid)
    ensures ResumesBelow(w, SyncEnter(t))
  {
  }

  lemma BrokenThread(w: World, e: Event)
    requires !ResumesBelow(w, e)
    ensures e.t in w.threads
  {
  }

  lemma BrokenGuardBreaks(w: World, e: Event)
    requires Inv(w) && !ResumesBelow(w, e)
    ensures !Propagated(Step(Step(w, e), SyncEnter(e.t)))
  {
    hide Step, Inv, ResumesBelow, SpanPropagated, RunningTask;
    BrokenThread(w, e);
    BrokenGuardEscapes(w, e);
  }

  /** Futures that stay in their task always meet the guard. */
  lemma StayingHomeIsBelow(w: World, e: Event)
    requires Inv(w) && StaysHome(w, e)
    ensures ResumesBelow(w, e)
  {
    hide IsAncestor, RunningTask, ThreadOk, SpanOk;
    if Resumes(w, e) {
      var task := RunningTask(w, w.threads[e.t].frames);
      assert FutOk(w, e.fut);
      if task.Some? { TaskSpansLeaveToDispatch(w, w.futs[e.fut].span.value, task.value); }
    }
  }

  lemma StayingHomePropagates(w: World, es: seq<Event>)
    requires Init(w) && AllStayHome(w, es)
    ensures AllResumeBelow(w, es)
  {
    hide Step, Inv, ResumesBelow, StaysHome, Init;
    forall i | 0 <= i < |es| ensures ResumesBelow(Run(w, es[..i]), es[i]) {
      RunKeepsInv(w, es[..i]);
      StayingHomeIsBelow(Run(w, es[..i]), es[i]);
    }
  }
}
