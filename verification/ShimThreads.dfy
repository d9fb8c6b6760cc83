/** The runtime shim under any interleaving of threads (otel-shim/src/lib.rs:134-302). */
module ShimThreads {
  import opened Basics
  import Shim

  // Each thread has its own STACK and IN_SHIM; all share the wrapping 64-bit NEXT_HANDLE. The atomic steps
  // are the ones another thread can come between: starting a span, each fetch_add, the push, the pop, the
  // end of the export, and marking an error.

  const HANDLE_SPACE := Shim.HANDLE_SPACE

  type Tid = nat

  datatype Slot = Slot(handle: nat, error: bool)

  /** Where a thread is inside the shim. */
  datatype Pc =
    | Outside
    | Started            // span attached, no ticket yet
    | Retrying           // the first ticket was the null handle
    | Holding(handle: nat)
    | Exporting          // popped tuple being dropped, outside the STACK borrow

  datatype Thread = Thread(stack: seq<Slot>, inShim: bool, pc: Pc)

  /** A ticket drawn from the counter and the thread that kept it. */
  datatype Issue = Issue(thread: Tid, handle: nat)

  datatype World = World(threads: map<Tid, Thread>, next: nat, tickets: nat, log: seq<Issue>)

  datatype Event =
    | Begin(t: Tid, suppressed: bool)
    | Fail(t: Tid)                       // a swallowed panic or an early return of 0 after acquiring
    | Draw(t: Tid)                       // NEXT_HANDLE.fetch_add
    | Push(t: Tid)
    | Exit(t: Tid, handle: nat)
    | Exported(t: Tid)                   // drop(popped) returned or its panic was swallowed
    | SetError(t: Tid, handle: nat, fault: bool)

  function Set(w: World, t: Tid, th: Thread): World { w.(threads := w.threads[t := th]) }

  function HandleOf(s: Slot): nat { s.handle }

  predicate TopIs(stack: seq<Slot>, handle: nat) {
    |stack| > 0 && stack[|stack| - 1].handle == handle
  }

  /** The steps that touch only the thread's own state; a disabled one changes nothing. */
  function Act(th: Thread, e: Event): Thread
    requires !e.Draw?
  {
    match e
    case Begin(_, suppressed) =>
      if suppressed || th.inShim then th else th.(inShim := true, pc := Started)
    case Fail(_) =>
      if th.pc.Outside? || th.pc.Exporting? then th else th.(inShim := false, pc := Outside)
    case Push(_) =>
      if !th.pc.Holding? then th else Thread(th.stack + [Slot(th.pc.handle, false)], false, Outside)
    case Exit(_, handle) =>
      if handle == 0 || th.inShim then th
      else Thread(if TopIs(th.stack, handle) then th.stack[..|th.stack| - 1] else th.stack, true, Exporting)
    case Exported(_) =>
      if !th.pc.Exporting? then th else th.(inShim := false, pc := Outside)
    case SetError(_, handle, fault) =>
      var i := FindLast(th.stack, HandleOf, handle);
      if handle == 0 || th.inShim || i < 0 || fault then th
      else th.(stack := th.stack[i := Slot(handle, true)])
  }

  /** One atomic step; drawing a ticket is the only one that touches shared state. */
  function Step(w: World, e: Event): World {
    if e.t !in w.threads then w
    else
      var th := w.threads[e.t];
      if !e.Draw? then Set(w, e.t, Act(th, e))
      else if !th.pc.Started? && !th.pc.Retrying? then w
      else
        var drawn := w.(next := (w.next + 1) % HANDLE_SPACE, tickets := w.tickets + 1);
        if th.pc.Started? && w.next == 0 then Set(drawn, e.t, th.(pc := Retrying))
        else Set(drawn.(log := w.log + [Issue(e.t, w.next)]), e.t, th.(pc := Holding(w.next)))
  }

  function Run(w: World, es: seq<Event>): World
    decreases |es|
  {
    if es == [] then w else Step(Run(w, es[..|es| - 1]), es[|es| - 1])
  }

  /** Any set of threads, none of which has used the shim. */
  ghost predicate Init(w: World) {
    && w.next == 1 && w.tickets == 0 && w.log == []
    && forall t :: t in w.threads ==> w.threads[t] == Thread([], false, Outside)
  }

  predicate Issued(log: seq<Issue>, t: Tid, handle: nat) {
    1 <= handle <= |log| && log[handle - 1] == Issue(t, handle)
  }

  /** Is `handle` live on thread t in slot i? */
  predicate LiveAt(w: World, t: Tid, i: nat, handle: nat) {
    t in w.threads && i < |w.threads[t].stack| && w.threads[t].stack[i].handle == handle
  }

  predicate Increasing(stack: seq<Slot>) {
    forall i, j :: 0 <= i < j < |stack| ==> stack[i].handle < stack[j].handle
  }

  ghost predicate ThreadInv(log: seq<Issue>, t: Tid, th: Thread) {
    && th.inShim == !th.pc.Outside?
    && !th.pc.Retrying?
    && Increasing(th.stack)
    && (forall i :: 0 <= i < |th.stack| ==> Issued(log, t, th.stack[i].handle))
    && (th.pc.Holding? ==>
        && Issued(log, t, th.pc.handle)
        && forall i :: 0 <= i < |th.stack| ==> th.stack[i].handle < th.pc.handle)
  }

  /** While fewer than 2^64 tickets were drawn, ticket number k is handle k. */
  ghost predicate Inv(w: World) {
    && w.tickets < HANDLE_SPACE
    && w.next == (w.tickets + 1) % HANDLE_SPACE
    && |w.log| == w.tickets
    && (forall i :: 0 <= i < |w.log| ==> w.log[i].handle == i + 1)
    && (forall t :: t in w.threads ==> ThreadInv(w.log, t, w.threads[t]))
  }

  lemma ActKeepsThread(log: seq<Issue>, th: Thread, e: Event)
    requires ThreadInv(log, e.t, th) && !e.Draw?
    ensures ThreadInv(log, e.t, Act(th, e))
  {
    assert forall i :: 0 <= i < |th.stack| ==> Issued(log, e.t, th.stack[i].handle);
  }

  lemma StepKeepsInv(w: World, e: Event)
    requires Inv(w) && Step(w, e).tickets < HANDLE_SPACE
    ensures Inv(Step(w, e))
  {
    var v := Step(w, e);
    if e.t in w.threads {
      var th := w.threads[e.t];
      assert ThreadInv(w.log, e.t, th);
      if !e.Draw? {
        ActKeepsThread(w.log, th, e);
        assert w.log + [] == w.log;
      } else if v != w {
        assert w.next == |w.log| + 1;
        assert Issued(v.log, e.t, w.next);
      }
      forall t | t in v.threads ensures ThreadInv(v.log, t, v.threads[t]) {
        if t != e.t {
          assert ThreadInv(w.log, t, w.threads[t]);
        } else if e.Draw? && v != w {
          assert v.threads[t] == th.(pc := Holding(w.next));
          assert forall i :: 0 <= i < |th.stack| ==> Issued(w.log, t, th.stack[i].handle);
        }
      }
    }
  }

  /** Where a thread is when an event changes it: steps happen in program order, and calls start outside the shim. */
  predicate InPlace(pc: Pc, e: Event) {
    match e
    case Begin(_, _) => pc.Outside?
    case Draw(_) => pc.Started? || pc.Retrying?
    case Fail(_) => pc.Started? || pc.Retrying? || pc.Holding?
    case Push(_) => pc.Holding?
    case Exit(_, _) => pc.Outside?
    case Exported(_) => pc.Exporting?
    case SetError(_, _, _) => pc.Outside?
  }

  lemma StepsAreInPlace(w: World, e: Event, t: Tid)
    requires Inv(w) && t in w.threads
    ensures t in Step(w, e).threads
    ensures Step(w, e).threads[t] != w.threads[t] ==> e.t == t && InPlace(w.threads[t].pc, e)
  {
    assert ThreadInv(w.log, t, w.threads[t]);
  }

  /** While a thread exports a span nothing else happens on it: only the end of the export changes it. */
  lemma ExportsAreAlone(w: World, e: Event, t: Tid)
    requires Inv(w) && t in w.threads && w.threads[t].pc.Exporting? && e != Exported(t)
    ensures t in Step(w, e).threads && Step(w, e).threads[t] == w.threads[t]
  {
    assert ThreadInv(w.log, t, w.threads[t]);
  }

  lemma {:induction false} RunKeepsInv(w: World, es: seq<Event>)
    requires Init(w) && Run(w, es).tickets <= 0xFFFF_FFFF_FFFF_FFFF
    ensures Inv(Run(w, es))
    ensures Run(w, es).next == (Run(w, es).tickets + 1) % 0x1_0000_0000_0000_0000
    decreases |es|
  {
    if es != [] {
      var before := Run(w, es[..|es| - 1]);
      assert before.tickets <= Step(before, es[|es| - 1]).tickets;
      RunKeepsInv(w, es[..|es| - 1]);
      StepKeepsInv(before, es[|es| - 1]);
    }
  }

  /**
    Over every interleaving that draws at most 2^64 - 1 tickets: issued handles are nonzero and
    pairwise different, stacks grow strictly upwards, and a handle is live on one thread only.
   */
  lemma {:induction false} HandlesAreUnique(w: World, es: seq<Event>)
    requires Init(w) && Run(w, es).tickets <= 0xFFFF_FFFF_FFFF_FFFF
    ensures var v := Run(w, es);
            && (forall i :: 0 <= i < |v.log| ==> v.log[i].handle != 0)
            && (forall i, j :: 0 <= i < j < |v.log| ==> v.log[i].handle != v.log[j].handle)
            && (forall t :: t in v.threads ==> Increasing(v.threads[t].stack))
            && (forall h, t, u, i: nat, j: nat :: LiveAt(v, t, i, h) && LiveAt(v, u, j, h) ==> t == u && i == j)
  {
    RunKeepsInv(w, es);
    var v := Run(w, es);
    forall h, t, u, i: nat, j: nat | LiveAt(v, t, i, h) && LiveAt(v, u, j, h) ensures t == u && i == j {
      assert ThreadInv(v.log, t, v.threads[t]) && ThreadInv(v.log, u, v.threads[u]);
      assert Issued(v.log, t, v.threads[t].stack[i].handle) && Issued(v.log, u, v.threads[u].stack[j].handle);
    }
    forall t | t in v.threads ensures Increasing(v.threads[t].stack) {
      assert ThreadInv(v.log, t, v.threads[t]);
    }
  }

  /** A stack shrinks only by an exit of its own thread whose nonzero handle is the top, and by that one slot. */
  lemma OnlyMatchingExitsPop(w: World, e: Event, t: Tid)
    requires t in w.threads && |Step(w, e).threads[t].stack| < |w.threads[t].stack|
    ensures e.Exit? && e.t == t && e.handle != 0 && !w.threads[t].inShim
    ensures TopIs(w.threads[t].stack, e.handle)
    ensures Step(w, e).threads[t].stack == w.threads[t].stack[..|w.threads[t].stack| - 1]
  {
  }

  /**
    After any run, an effective set_error marks exactly the one live span of the calling thread
    that its handle names; the spans of other threads and all other spans keep their status.
   */
  lemma {:induction false} SetErrorIsExact(w: World, es: seq<Event>, t: Tid, handle: nat, fault: bool, u: Tid, i: nat)
    requires Init(w) && Run(w, es).tickets <= 0xFFFF_FFFF_FFFF_FFFF
    requires var v := Run(w, es); u in v.threads && i < |v.threads[u].stack|
    ensures var v := Run(w, es);
            var after := Step(v, SetError(t, handle, fault));
            && |after.threads[u].stack| == |v.threads[u].stack|
            && after.threads[u].stack[i].handle == v.threads[u].stack[i].handle
            && (after.threads[u].stack[i].error <==>
                || v.threads[u].stack[i].error
                || (!fault && u == t && LiveAt(v, t, i, handle) && !v.threads[t].inShim))
  {
    RunKeepsInv(w, es);
    var v := Run(w, es);
    assert ThreadInv(v.log, u, v.threads[u]);
    assert Issued(v.log, u, v.threads[u].stack[i].handle);
  }

  /** A span whose handle is used on another thread is out of reach: exit and set_error there leave it alone. */
  lemma {:induction false} ForeignHandlesAreInert(w: World, es: seq<Event>, owner: Tid, other: Tid, i: nat, fault: bool)
    requires Init(w) && Run(w, es).tickets <= 0xFFFF_FFFF_FFFF_FFFF && owner != other
    requires var v := Run(w, es); owner in v.threads && i < |v.threads[owner].stack| && other in v.threads
    ensures var v := Run(w, es);
            var h := v.threads[owner].stack[i].handle;
            && Step(v, SetError(other, h, fault)) == v
            && forall t :: t in v.threads ==> Step(v, Exit(other, h)).threads[t].stack == v.threads[t].stack
  {
    HandlesAreUnique(w, es);
    RunKeepsInv(w, es);
    var v := Run(w, es);
    var h := v.threads[owner].stack[i].handle;
    assert LiveAt(v, owner, i, h);
    assert forall j: nat :: !LiveAt(v, other, j, h);
    assert FindLast(v.threads[other].stack, HandleOf, h) == -1;
    assert v.threads[other := v.threads[other]] == v.threads;
  }
}
