/**
  A concrete run in which an application moves a started future from one task to another.
  Task 2 is dispatched outside any span and first polls future 3; task 1, dispatched inside
  span 1, then resumes future 3, which calls an instrumented function and opens span 2.
 */
module MovedFuture {
  import opened Basics
  import opened AsyncRuntime

  function At(th: Thread, futs: map<Fid, Fut>, spans: seq<Span>): World { World(map[0 := th], futs, spans) }

  const REST := Thread(None, [], 0)
  const NEW2 := Fut(Task(None), Unpolled, None, Some(2))
  const NEW3 := Fut(AsyncFn(true, false), Unpolled, None, None)
  const NEW1 := Fut(Task(Some(1)), Unpolled, None, Some(1))
  const RUN3 := Fut(AsyncFn(true, false), Running(0, 1), Some(0), Some(2))
  const FRAME2 := Frame(Some(2), None, None, Some(2))
  const FRAME1 := Frame(Some(1), Some(1), None, Some(1))
  const SPAN0 := Span(None, Some(3), Some(2), Some(2), [], false, false)
  const SPAN1 := Span(None, None, None, None, [], false, false)
  const SPAN2 := Span(Some(0), None, Some(2), Some(1), [], false, false)

  const W0 := At(REST, map[], [])
  const W2 := At(REST, map[2 := NEW2, 3 := NEW3], [])
  const W3 := At(Thread(None, [FRAME2], 0), map[2 := NEW2.(phase := Running(0, 0)), 3 := NEW3], [])
  const W4 := At(Thread(Some(0), [FRAME2, Frame(Some(3), Some(0), None, Some(2))], 0),
                 map[2 := NEW2.(phase := Running(0, 0)), 3 := RUN3], [SPAN0])
  const W6 := At(REST, map[2 := NEW2.(phase := Suspended), 3 := RUN3.(phase := Suspended)], [SPAN0])
  const W9 := At(REST, map[1 := NEW1, 2 := NEW2.(phase := Suspended), 3 := RUN3.(phase := Suspended)], [SPAN0, SPAN1])
  const W11 := At(Thread(Some(0), [FRAME1, Frame(Some(3), Some(0), Some(1), Some(2))], 0),
                  map[1 := NEW1.(phase := Running(0, 0)), 2 := NEW2.(phase := Suspended), 3 := RUN3], [SPAN0, SPAN1])

  lemma Dispatched()
    ensures Step(Step(W0, Dispatch(0, 2)), Create(0, 3, true, false)) == W2
  {
    assert Step(Step(W0, Dispatch(0, 2)), Create(0, 3, true, false)).futs == W2.futs;
  }

  lemma Polled()
    ensures Step(W2, PollStart(0, 2)) == W3
  {
    var v := Step(W2, PollStart(0, 2));
    assert v.threads[0].frames == W3.threads[0].frames;
    assert v.futs == W3.futs && v.threads == W3.threads;
  }

  lemma Started()
    ensures Step(W3, PollStart(0, 3)) == W4
  {
    var v := Step(W3, PollStart(0, 3));
    assert RunningTask(W3, [FRAME2]) == Some(2);
    assert v.threads[0].frames == W4.threads[0].frames;
    assert v.futs == W4.futs && v.threads == W4.threads && v.spans == W4.spans;
  }

  lemma Suspends()
    ensures Step(Step(W4, PollPending(0)), PollPending(0)) == W6
  {
    var u := Step(W4, PollPending(0));
    assert u.threads[0] == Thread(None, [FRAME2], 0);
    var v := Step(u, PollPending(0));
    assert v.futs == W6.futs && v.threads == W6.threads;
  }

  lemma DispatchedInSpan()
    ensures Step(Step(Step(W6, SyncEnter(0)), Dispatch(0, 1)), SyncExit(0)) == W9
  {
    var u := Step(Step(W6, SyncEnter(0)), Dispatch(0, 1));
    assert u.threads[0] == Thread(Some(1), [Frame(None, Some(1), None, None)], 0);
    var v := Step(u, SyncExit(0));
    assert v.futs == W9.futs && v.threads == W9.threads && v.spans == W9.spans;
  }

  lemma Resumed()
    ensures Step(Step(W9, PollStart(0, 1)), PollStart(0, 3)) == W11
  {
    var u := Step(W9, PollStart(0, 1));
    assert u.threads[0] == Thread(Some(1), [FRAME1], 0);
    var v := Step(u, PollStart(0, 3));
    assert v.threads[0].frames == W11.threads[0].frames;
    assert v.futs == W11.futs && v.threads == W11.threads && v.spans == W11.spans;
  }

  lemma Opens()
    ensures Step(W11, SyncEnter(0)).spans == [SPAN0, SPAN1, SPAN2]
    ensures Step(W11, SyncEnter(0)).futs == W11.futs
  {
    var frames := W11.threads[0].frames;
    assert frames[..1] == [FRAME1];
    assert RunningTask(W11, [FRAME1]) == Some(1);
    assert RunningTask(W11, frames) == Some(1);
  }

  /** The run reaches `w` along `es`. */
  lemma Extend(w: World, es: seq<Event>, e: Event)
    ensures Run(w, es + [e]) == Step(Run(w, es), e)
  {
    assert (es + [e])[..|es|] == es;
  }

  /** Span s was opened inside a spawned task but does not descend from its dispatch context. */
  predicate Escapes(w: World, s: nat, task: Fid) {
    && s < |w.spans| && w.spans[s].opener == Some(task)
    && task in w.futs && w.futs[task].kind.Task? && w.futs[task].kind.captured.Some?
    && !IsAncestor(w.spans, w.futs[task].kind.captured.value, s)
  }

  /** Propagation does fail in runs that resume a started future below another context. */
  lemma MovedFuturesEscape()
    ensures exists w: World, es: seq<Event>, s: nat, task: Fid :: Init(w) && Escapes(Run(w, es), s, task)
  {
    hide Step;
    var e2 := [Dispatch(0, 2)] + [Create(0, 3, true, false)];
    assert [] + [Dispatch(0, 2)] == [Dispatch(0, 2)];
    Extend(W0, [], Dispatch(0, 2)); Extend(W0, [Dispatch(0, 2)], Create(0, 3, true, false)); Dispatched();
    var e4 := e2 + [PollStart(0, 2)] + [PollStart(0, 3)];
    Extend(W0, e2, PollStart(0, 2)); Extend(W0, e2 + [PollStart(0, 2)], PollStart(0, 3)); Polled(); Started();
    var e6 := e4 + [PollPending(0)] + [PollPending(0)];
    Extend(W0, e4, PollPending(0)); Extend(W0, e4 + [PollPending(0)], PollPending(0)); Suspends();
    var e8 := e6 + [SyncEnter(0)] + [Dispatch(0, 1)];
    Extend(W0, e6, SyncEnter(0)); Extend(W0, e6 + [SyncEnter(0)], Dispatch(0, 1));
    var e10 := e8 + [SyncExit(0)] + [PollStart(0, 1)];
    Extend(W0, e8, SyncExit(0)); DispatchedInSpan(); Extend(W0, e8 + [SyncExit(0)], PollStart(0, 1));
    var es := e10 + [PollStart(0, 3)] + [SyncEnter(0)];
    Extend(W0, e10, PollStart(0, 3)); Resumed(); Extend(W0, e10 + [PollStart(0, 3)], SyncEnter(0)); Opens();
    assert Run(W0, es) == Step(W11, SyncEnter(0));
    assert Escapes(Run(W0, es), 2, 1);
  }
}
