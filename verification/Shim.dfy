/**
  The per-thread runtime shim (otel-shim/src/lib.rs) as seen by one thread: the span
  stack, the re-entrancy flag and the handle counter.
 */
module Shim {
  import opened Basics

  // The functions are the specification; class `ThreadShim` is the imperative form, proved against them.
  //
  // Ending a span runs the exporter, and the exporter may itself be instrumented. What an exporter does
  // with one span is an arbitrary finite `Code` tree: instrumented calls with their guards, raw shim
  // calls with any handle, panics and `catch_unwind`.

  const HANDLE_SPACE: nat := 0x1_0000_0000_0000_0000

  /** The thread's current OpenTelemetry context. */
  datatype Ctx = Ctx(span: Option<nat>, suppressed: bool)

  datatype Span = Span(id: nat, name: string, parent: Option<nat>, error: bool)

  /** One element of STACK: handle, span context and the guard that restores `saved`. */
  datatype Entry = Entry(handle: nat, span: Span, saved: Ctx)

  /** Where the SDK panics inside one `enter`: nowhere, before or after the attach. */
  datatype Fault = NoFault | Early | Late

  /** What user code reachable from an export does. */
  datatype Code =
    | Stop
    | Boom
    | Call(name: string, wraps: bool, fails: bool, body: Code, rest: Code)
    | RawExit(handle: nat, rest: Code)
    | RawSetError(handle: nat, rest: Code)
    | Catch(body: Code, rest: Code)

  /** The SDK and exporter, as functions of the attempt, of the span id and of the span. */
  datatype Sdk = Sdk(fault: nat -> Fault, errorFault: nat -> bool, exporter: Span -> Code)

  /** `dead` is set when a second panic escapes a destructor and the process aborts. */
  datatype St = St(
    stack: seq<Entry>, current: Ctx, inShim: bool, dead: bool,
    next: nat, starts: nat, nextSpan: nat, finished: seq<Span>)

  /** Result of running code: final state, whether it unwound, and every handle its enters got. */
  datatype Ran = Ran(st: St, panicked: bool, handles: seq<nat>)

  function Rank(st: St): nat { if st.inShim then 0 else 1 }

  function Size(c: Code): nat {
    match c
    case Stop => 1
    case Boom => 1
    case Call(_, _, _, body, rest) => 1 + Size(body) + Size(rest)
    case RawExit(_, rest) => 1 + Size(rest)
    case RawSetError(_, rest) => 1 + Size(rest)
    case Catch(body, rest) => 1 + Size(body) + Size(rest)
  }

  /** fetch_add on the wrapping counter, taken again when the first ticket is the null handle. */
  function Bump(next: nat): nat { (next + 1) % HANDLE_SPACE }
  function Ticket(next: nat): nat { if next == 0 then Bump(next) else next }
  function AfterTicket(next: nat): nat { if next == 0 then Bump(Bump(next)) else Bump(next) }

  /** `__otel_span_enter`: the handle it returns and the state it leaves. */
  function Entered(sdk: Sdk, name: string, st: St): (r: (nat, St))
    ensures r.1.inShim == st.inShim
    decreases Rank(st), 0
  {
    if name == "" || st.current.suppressed || st.inShim then (0, st)
    else
      var a := st.(inShim := true, starts := st.starts + 1);
      match sdk.fault(st.starts)
      case Early => (0, a.(inShim := false))
      case Late =>
        // The unwinding drops the guard and the context: the span ends and is exported
        // while the enter is already panicking.
        var span := Span(a.nextSpan, name, a.current.span, false);
        var x := Run(sdk, sdk.exporter(span), a.(nextSpan := a.nextSpan + 1, finished := a.finished + [span]));
        (0, x.st.(inShim := false, dead := x.st.dead || x.panicked))
      case NoFault =>
        var span := Span(a.nextSpan, name, a.current.span, false);
        var h := Ticket(a.next);
        (h, a.(inShim := false,
               stack := a.stack + [Entry(h, span, a.current)],
               current := Ctx(Some(span.id), false),
               next := AfterTicket(a.next),
               nextSpan := a.nextSpan + 1))
  }

  /** `__otel_span_exit`: pop on a top match inside the borrow, drop (and export) outside it. */
  function Exited(sdk: Sdk, handle: nat, st: St): (r: St)
    ensures r.inShim == st.inShim
    decreases Rank(st), 0
  {
    if handle == 0 || st.inShim then st
    else
      var n := |st.stack|;
      if n == 0 || st.stack[n - 1].handle != handle then st
      else
        var e := st.stack[n - 1];
        var popped := st.(inShim := true, stack := st.stack[..n - 1], current := e.saved,
                          finished := st.finished + [e.span]);
        Run(sdk, sdk.exporter(e.span), popped).st.(inShim := false)
  }

  function HandleOf(e: Entry): nat { e.handle }

  /** `__otel_span_set_error`. */
  function Marked(sdk: Sdk, handle: nat, st: St): (r: St)
    ensures r.inShim == st.inShim
  {
    if handle == 0 || st.inShim then st
    else
      var i := FindLast(st.stack, HandleOf, handle);
      if i < 0 || sdk.errorFault(st.stack[i].span.id) then st
      else
        var e := st.stack[i];
        st.(stack := st.stack[i := e.(span := e.span.(error := true))])
  }

  /** Run instrumented user code; every call goes through the same three entry points. */
  function Run(sdk: Sdk, c: Code, st: St): (r: Ran)
    ensures r.st.inShim == st.inShim
    decreases Rank(st), Size(c)
  {
    match c
    case Stop => Ran(st, false, [])
    case Boom => Ran(st, true, [])
    case RawExit(h, rest) => Run(sdk, rest, Exited(sdk, h, st))
    case RawSetError(h, rest) => Run(sdk, rest, Marked(sdk, h, st))
    case Catch(body, rest) =>
      var b := Run(sdk, body, st);
      var r := Run(sdk, rest, b.st);
      r.(handles := b.handles + r.handles)
    case Call(name, wraps, fails, body, rest) =>
      var (h, st1) := Entered(sdk, name, st);
      var b := Run(sdk, body, st1);
      var marked := if wraps && fails && !b.panicked && h != 0 then Marked(sdk, h, b.st) else b.st;
      var left := if h != 0 then Exited(sdk, h, marked) else marked;
      if b.panicked then Ran(left, true, [h] + b.handles)
      else
        var r := Run(sdk, rest, left);
        r.(handles := [h] + b.handles + r.handles)
  }

  /** Whether code unwinds; a property of the code alone. */
  predicate Panics(c: Code) {
    match c
    case Stop => false
    case Boom => true
    case RawExit(_, rest) => Panics(rest)
    case RawSetError(_, rest) => Panics(rest)
    case Catch(_, rest) => Panics(rest)
    case Call(_, _, _, body, rest) => Panics(body) || Panics(rest)
  }

  predicate AllNull(handles: seq<nat>) { forall i :: 0 <= i < |handles| ==> handles[i] == 0 }

  /** Code run while the shim is active changes nothing, and every enter in it gets handle 0. */
  lemma {:induction false} ReentrantCodeIsInert(sdk: Sdk, c: Code, st: St)
    requires st.inShim
    ensures Run(sdk, c, st).st == st
    ensures AllNull(Run(sdk, c, st).handles)
    ensures Run(sdk, c, st).panicked == Panics(c)
    decreases c
  {
    match c
    case Stop =>
    case Boom =>
    case RawExit(h, rest) => ReentrantCodeIsInert(sdk, rest, st);
    case RawSetError(h, rest) => ReentrantCodeIsInert(sdk, rest, st);
    case Catch(body, rest) =>
      ReentrantCodeIsInert(sdk, body, st);
      ReentrantCodeIsInert(sdk, rest, st);
    case Call(name, wraps, fails, body, rest) =>
      ReentrantCodeIsInert(sdk, body, st);
      ReentrantCodeIsInert(sdk, rest, st);
  }

  /** Does this exit pop? */
  predicate Pops(handle: nat, st: St) {
    handle != 0 && !st.inShim && |st.stack| > 0 && st.stack[|st.stack| - 1].handle == handle
  }

  /**
    The whole effect of an exit, whatever the exporter does: a matching exit removes exactly
    the top entry, restores its saved context and finishes its span; any other exit is void.
   */
  lemma ExitEffect(sdk: Sdk, handle: nat, st: St)
    ensures Exited(sdk, handle, st) ==
            if Pops(handle, st) then
              var e := st.stack[|st.stack| - 1];
              st.(stack := st.stack[..|st.stack| - 1], current := e.saved, finished := st.finished + [e.span])
            else st
  {
    if Pops(handle, st) {
      var e := st.stack[|st.stack| - 1];
      var popped := st.(inShim := true, stack := st.stack[..|st.stack| - 1], current := e.saved,
                        finished := st.finished + [e.span]);
      ReentrantCodeIsInert(sdk, sdk.exporter(e.span), popped);
    }
  }

  /** An enter is suppressed when the shim declines before starting a span. */
  predicate Declines(name: string, st: St) { name == "" || st.current.suppressed || st.inShim }

  /**
    The whole effect of an enter. It pushes exactly one entry when it does not decline and
    the SDK does not panic; a panic is swallowed and leaves stack, context and flag as they
    were, except that a panic after the attach, met by an export that panics too, aborts.
   */
  lemma EnterEffect(sdk: Sdk, name: string, st: St)
    ensures var (h, r) := Entered(sdk, name, st);
            if Declines(name, st) then h == 0 && r == st
            else
              var span := Span(st.nextSpan, name, st.current.span, false);
              match sdk.fault(st.starts)
              case Early => h == 0 && r == st.(starts := st.starts + 1)
              case Late => h == 0 && r == st.(starts := st.starts + 1, nextSpan := st.nextSpan + 1,
                                             finished := st.finished + [span],
                                             dead := st.dead || Panics(sdk.exporter(span)))
              case NoFault => h != 0 && r == st.(starts := st.starts + 1, nextSpan := st.nextSpan + 1,
                                                next := AfterTicket(st.next),
                                                stack := st.stack + [Entry(h, span, st.current)],
                                                current := Ctx(Some(span.id), false))
  {
    if !Declines(name, st) && sdk.fault(st.starts) == Late {
      var span := Span(st.nextSpan, name, st.current.span, false);
      var a := st.(inShim := true, starts := st.starts + 1, nextSpan := st.nextSpan + 1,
                   finished := st.finished + [span]);
      ReentrantCodeIsInert(sdk, sdk.exporter(span), a);
    }
  }

  /** A swallowed enter panic kills the process exactly in the double-panic case. */
  lemma EnterAbortsIff(sdk: Sdk, name: string, st: St)
    requires !st.dead
    ensures Entered(sdk, name, st).1.dead <==>
            && !Declines(name, st)
            && sdk.fault(st.starts) == Late
            && Panics(sdk.exporter(Span(st.nextSpan, name, st.current.span, false)))
  {
    EnterEffect(sdk, name, st);
  }

  /** Entering and then exiting with the handle obtained is neutral, whatever runs in the export. */
  lemma EnterExitIsNeutral(sdk: Sdk, name: string, st: St)
    requires Entered(sdk, name, st).0 != 0
    ensures var (h, entered) := Entered(sdk, name, st);
            var left := Exited(sdk, h, entered);
            && left.stack == st.stack && left.current == st.current && left.inShim == st.inShim
            && left.finished == st.finished + [Span(st.nextSpan, name, st.current.span, false)]
  {
    EnterEffect(sdk, name, st);
    var (h, entered) := Entered(sdk, name, st);
    ExitEffect(sdk, h, entered);
    assert entered.stack[..|entered.stack| - 1] == st.stack;
  }

  /** Marking an error touches the topmost entry with that handle, and only its status. */
  lemma SetErrorEffect(sdk: Sdk, handle: nat, st: St, k: nat)
    requires handle != 0 && !st.inShim && k < |st.stack|
    ensures var r := Marked(sdk, handle, st);
            var named := st.stack[k].handle == handle &&
                         forall j :: k < j < |st.stack| ==> st.stack[j].handle != handle;
            && r == st.(stack := r.stack) && |r.stack| == |st.stack|
            && r.stack[k] == if named && !sdk.errorFault(st.stack[k].span.id)
                             then st.stack[k].(span := st.stack[k].span.(error := true))
                             else st.stack[k]
  {
  }

  /** The imperative shim of one thread. */
  class ThreadShim {
    const sdk: Sdk
    var stack: seq<Entry>
    var current: Ctx
    var inShim: bool
    var dead: bool
    var next: nat
    var starts: nat
    var nextSpan: nat
    var finished: seq<Span>
    /** Live re-entrancy guards, and the most that were ever live at once. */
    ghost var depth: nat
    ghost var peak: nat

    function State(): St
      reads this
    {
      St(stack, current, inShim, dead, next, starts, nextSpan, finished)
    }

    /** The flag is the number of live guards, and there is never a second one. */
    ghost predicate Valid()
      reads this
    {
      depth == (if inShim then 1 else 0) && peak <= 1
    }

    constructor (sdk: Sdk, current: Ctx)
      ensures Valid() && this.sdk == sdk
      ensures State() == St([], current, false, false, 1, 0, 0, [])
    {
      this.sdk := sdk;
      this.stack, this.current, this.inShim, this.dead := [], current, false, false;
      this.next, this.starts, this.nextSpan, this.finished := 1, 0, 0, [];
      this.depth, this.peak := 0, 0;
    }

    /** `ReentrancyGuard::acquire`. */
    method Acquire() returns (ok: bool)
      requires Valid()
      modifies this`inShim, this`depth, this`peak
      ensures Valid()
      ensures ok == !old(inShim) && inShim
    {
      if inShim {
        ok := false;
      } else {
        inShim, depth := true, depth + 1;
        peak := if peak < depth then depth else peak;
        ok := true;
      }
    }

    /** `Drop for ReentrancyGuard`. */
    method Release()
      requires Valid() && inShim
      modifies this`inShim, this`depth
      ensures Valid() && !inShim
    {
      inShim, depth := false, depth - 1;
    }

    method Enter(name: string) returns (handle: nat)
      requires Valid()
      modifies this
      ensures Valid()
      ensures (handle, State()) == Entered(sdk, name, old(State()))
      decreases Rank(State()), 0
    {
      hide Run, Exited, Marked, FindLast, Bump;
      if name == "" || current.suppressed {
        return 0;
      }
      var ok := Acquire();
      if !ok {
        return 0;
      }
      var fault := sdk.fault(starts);
      starts := starts + 1;
      if fault == Early {
        Release();
        return 0;
      }
      var span := Span(nextSpan, name, current.span, false);
      nextSpan := nextSpan + 1;
      if fault == Late {
        finished := finished + [span];
        var panicked, _ := RunCode(sdk.exporter(span));
        dead := dead || panicked;
        Release();
        return 0;
      }
      var saved := current;
      current := Ctx(Some(span.id), false);
      handle := next;
      next := Bump(next);
      if handle == 0 {
        handle := next;
        next := Bump(next);
      }
      stack := stack + [Entry(handle, span, saved)];
      Release();
    }

    method Exit(handle: nat)
      requires Valid()
      modifies this
      ensures Valid()
      ensures State() == Exited(sdk, handle, old(State()))
      decreases Rank(State()), 0
    {
      hide Run, Entered, Marked, FindLast;
      if handle == 0 {
        return;
      }
      var ok := Acquire();
      if !ok {
        return;
      }
      var n := |stack|;
      if n > 0 && stack[n - 1].handle == handle {
        var e := stack[n - 1];
        stack := stack[..n - 1];
        // Dropping the popped tuple: detach, end the span, export it.
        current := e.saved;
        finished := finished + [e.span];
        var _, _ := RunCode(sdk.exporter(e.span));
      }
      Release();
    }

    method SetError(handle: nat)
      requires Valid()
      modifies this
      ensures Valid()
      ensures State() == Marked(sdk, handle, old(State()))
    {
      hide Run, Entered, Exited;
      if handle == 0 {
        return;
      }
      var ok := Acquire();
      if !ok {
        return;
      }
      var i := |stack|;
      while i > 0 && stack[i - 1].handle != handle
        invariant 0 <= i <= |stack|
        invariant forall j :: i <= j < |stack| ==> HandleOf(stack[j]) != handle
      {
        i := i - 1;
      }
      assert i - 1 == FindLast(stack, HandleOf, handle);
      if i > 0 && !sdk.errorFault(stack[i - 1].span.id) {
        var e := stack[i - 1];
        stack := stack[i - 1 := e.(span := e.span.(error := true))];
      }
      Release();
    }

    /** User code calling back into the shim, as an export does. */
    method RunCode(c: Code) returns (panicked: bool, handles: seq<nat>)
      requires Valid()
      modifies this
      ensures Valid()
      ensures Ran(State(), panicked, handles) == Run(sdk, c, old(State()))
      decreases Rank(State()), Size(c)
    {
      hide Entered, Exited, Marked, FindLast;
      match c
      case Stop => return false, [];
      case Boom => return true, [];
      case RawExit(h, rest) =>
        Exit(h);
        panicked, handles := RunCode(rest);
      case RawSetError(h, rest) =>
        SetError(h);
        panicked, handles := RunCode(rest);
      case Catch(body, rest) =>
        var _, inner := RunCode(body);
        panicked, handles := RunCode(rest);
        handles := inner + handles;
      case Call(name, wraps, fails, body, rest) =>
        var h := Enter(name);
        var inner;
        panicked, inner := RunCode(body);
        if wraps && fails && !panicked && h != 0 {
          SetError(h);
        }
        if h != 0 {
          Exit(h);
        }
        handles := [h] + inner;
        if !panicked {
          var more;
          panicked, more := RunCode(rest);
          handles := handles + more;
        }
    }
  }
}
