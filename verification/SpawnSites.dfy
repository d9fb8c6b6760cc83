/**
  Recognizing `tokio::spawn` calls, and why wrapping them is done once: on the syntax the
  wrapping produces, nothing is left to wrap
  (cargo-instrument/src/ast.rs:1155-1217, cargo-instrument/src/transform.rs:370-392).

  A call is recognized by its path and by having one argument that is not yet wrapped; files that
  bind the name `tokio` themselves are left alone.
 */
module SpawnSites {
  /** Expressions as far as recognition goes; `Node` is any other syntax with its parts. */
  datatype Expr =
    | PathExpr(segments: seq<string>)
    | Call(func: Expr, args: seq<Expr>)
    | Paren(inner: Expr)
    | Group(inner: Expr)
    | Node(parts: seq<Expr>)

  const WITH_CONTEXT := ["opentelemetry", "trace", "FutureExt", "with_context"]
  const CURRENT_CONTEXT := ["opentelemetry", "Context", "current"]

  predicate SpawnPath(segments: seq<string>) {
    segments == ["tokio", "spawn"] || segments == ["tokio", "task", "spawn"]
  }

  /** `is_arg_already_context_wrapped`. */
  predicate AlreadyWrapped(e: Expr) {
    match e
    case Call(func, _) => func.PathExpr? && func.segments == WITH_CONTEXT
    case Group(inner) => AlreadyWrapped(inner)
    case Paren(inner) => AlreadyWrapped(inner)
    case _ => false
  }

  /** `is_tokio_spawn_call`, in a file that does or does not bind `tokio` itself. */
  predicate Recognized(e: Expr, shadowed: bool) {
    && e.Call? && !shadowed && |e.args| == 1
    && e.func.PathExpr? && SpawnPath(e.func.segments) && !AlreadyWrapped(e.args[0])
  }

  /** An expression without the parentheses and invisible groups around it. */
  function Peeled(e: Expr): Expr {
    match e
    case Paren(inner) => Peeled(inner)
    case Group(inner) => Peeled(inner)
    case _ => e
  }

  lemma {:induction false} AlreadyWrappedMeans(e: Expr)
    ensures AlreadyWrapped(e) <==>
              exists args :: Peeled(e) == Call(PathExpr(["opentelemetry", "trace", "FutureExt", "with_context"]), args)
  {
    match e
    case Paren(inner) => AlreadyWrappedMeans(inner);
    case Group(inner) => AlreadyWrappedMeans(inner);
    case Call(func, args) => assert Peeled(e) == Call(func, args);
    case _ =>
  }

  /** The calls that are wrapped: `tokio::spawn` or `tokio::task::spawn` of one argument that is not wrapped yet. */
  lemma RecognizedMeans(e: Expr, shadowed: bool)
    ensures Recognized(e, shadowed) <==>
              && !shadowed
              && exists arg ::
                   && (e == Call(PathExpr(["tokio", "spawn"]), [arg])
                       || e == Call(PathExpr(["tokio", "task", "spawn"]), [arg]))
                   && forall args ::
                        Peeled(arg) != Call(PathExpr(["opentelemetry", "trace", "FutureExt", "with_context"]), args)
  {
    if e.Call? && |e.args| == 1 {
      AlreadyWrappedMeans(e.args[0]);
      assert e == Call(e.func, [e.args[0]]);
    }
  }

  /**
    A recognized call gets its argument, rewritten itself, wrapped with the context current there;
    others keep theirs.
   */
  lemma CallsBecome(e: Expr, shadowed: bool)
    requires e.Call?
    ensures Rewrite(e, shadowed).Call? && Rewrite(e, shadowed).func == Rewrite(e.func, shadowed)
    ensures Recognized(e, shadowed) ==>
              var current := Call(PathExpr(["opentelemetry", "Context", "current"]), []);
              Rewrite(e, shadowed).args
              == [Call(PathExpr(["opentelemetry", "trace", "FutureExt", "with_context"]),
                       [Rewrite(e.args[0], shadowed), current])]
    ensures !Recognized(e, shadowed) ==> Rewrite(e, shadowed).args == RewriteAll(e.args, shadowed)
  {
  }

  /** How many spawn sites an expression has. */
  function Sites(e: Expr, shadowed: bool): nat
    decreases e
  {
    match e
    case PathExpr(_) => 0
    case Call(func, args) =>
      (if Recognized(e, shadowed) then 1 else 0) + Sites(func, shadowed) + AllSites(args, shadowed)
    case Paren(inner) => Sites(inner, shadowed)
    case Group(inner) => Sites(inner, shadowed)
    case Node(parts) => AllSites(parts, shadowed)
  }

  function AllSites(es: seq<Expr>, shadowed: bool): nat
    decreases es
  {
    if es == [] then 0 else Sites(es[0], shadowed) + AllSites(es[1..], shadowed)
  }

  /** opentelemetry::trace::FutureExt::with_context(arg, opentelemetry::Context::current()) */
  function Wrap(arg: Expr): Expr { Call(PathExpr(WITH_CONTEXT), [arg, Call(PathExpr(CURRENT_CONTEXT), [])]) }

  /** What the two insertions around every recognized argument make of the syntax. */
  function Rewrite(e: Expr, shadowed: bool): Expr
    decreases e
  {
    match e
    case PathExpr(_) => e
    case Call(func, args) =>
      var inner := RewriteAll(args, shadowed);
      Call(Rewrite(func, shadowed), if Recognized(e, shadowed) && |inner| == 1 then [Wrap(inner[0])] else inner)
    case Paren(inner) => Paren(Rewrite(inner, shadowed))
    case Group(inner) => Group(Rewrite(inner, shadowed))
    case Node(parts) => Node(RewriteAll(parts, shadowed))
  }

  function RewriteAll(es: seq<Expr>, shadowed: bool): (r: seq<Expr>)
    ensures |r| == |es|
    ensures es != [] ==> r[0] == Rewrite(es[0], shadowed)
    decreases es
  {
    if es == [] then [] else [Rewrite(es[0], shadowed)] + RewriteAll(es[1..], shadowed)
  }

  lemma {:induction false} WrappingIsKept(e: Expr, shadowed: bool)
    requires AlreadyWrapped(e)
    ensures AlreadyWrapped(Rewrite(e, shadowed))
  {
    match e
    case Call(func, _) => assert Rewrite(func, shadowed) == func;
    case Group(inner) => WrappingIsKept(inner, shadowed);
    case Paren(inner) => WrappingIsKept(inner, shadowed);
    case _ =>
  }

  lemma WrappedHasNoMoreSites(arg: Expr, shadowed: bool)
    ensures Sites(Wrap(arg), shadowed) == Sites(arg, shadowed) && AlreadyWrapped(Wrap(arg))
  {
    var current := Call(PathExpr(CURRENT_CONTEXT), []);
    assert Sites(current, shadowed) == 0;
    assert [arg, current][1..] == [current] && [current][1..] == [];
    assert AllSites([current], shadowed) == 0;
    assert AllSites([arg, current], shadowed) == Sites(arg, shadowed);
  }

  /** After one rewrite no spawn site is left, however the calls nest. */
  lemma {:induction false} NothingLeftToWrap(e: Expr, shadowed: bool)
    ensures Sites(Rewrite(e, shadowed), shadowed) == 0
    decreases e
  {
    match e
    case PathExpr(_) =>
    case Call(_, _) => CallIsSettled(e, shadowed);
    case Paren(inner) => NothingLeftToWrap(inner, shadowed);
    case Group(inner) => NothingLeftToWrap(inner, shadowed);
    case Node(parts) => NothingLeftInAll(parts, shadowed);
  }

  lemma {:induction false} NothingLeftInAll(es: seq<Expr>, shadowed: bool)
    ensures AllSites(RewriteAll(es, shadowed), shadowed) == 0
    decreases es
  {
    hide Rewrite, Sites;
    if es != [] {
      NothingLeftToWrap(es[0], shadowed);
      NothingLeftInAll(es[1..], shadowed);
      assert RewriteAll(es, shadowed)[1..] == RewriteAll(es[1..], shadowed);
    }
  }

  lemma {:induction false} CallIsSettled(e: Expr, shadowed: bool)
    requires e.Call?
    ensures Sites(Rewrite(e, shadowed), shadowed) == 0
    decreases e, 0
  {
    NothingLeftToWrap(e.func, shadowed);
    NothingLeftInAll(e.args, shadowed);
    var inner := RewriteAll(e.args, shadowed);
    if Recognized(e, shadowed) {
      var wrapped := Wrap(inner[0]);
      assert inner[1..] == [] && [wrapped][1..] == [];
      WrappedHasNoMoreSites(inner[0], shadowed);
      assert AllSites([wrapped], shadowed) == 0;
    } else if |e.args| == 1 && AlreadyWrapped(e.args[0]) {
      WrappingIsKept(e.args[0], shadowed);
    }
  }

  lemma {:induction false} NoSitesNoChange(e: Expr, shadowed: bool)
    requires Sites(e, shadowed) == 0
    ensures Rewrite(e, shadowed) == e
    decreases e
  {
    match e
    case PathExpr(_) =>
    case Call(func, args) =>
      NoSitesNoChange(func, shadowed);
      NoSitesNoChangeInAll(args, shadowed);
    case Paren(inner) => NoSitesNoChange(inner, shadowed);
    case Group(inner) => NoSitesNoChange(inner, shadowed);
    case Node(parts) => NoSitesNoChangeInAll(parts, shadowed);
  }

  lemma {:induction false} NoSitesNoChangeInAll(es: seq<Expr>, shadowed: bool)
    requires AllSites(es, shadowed) == 0
    ensures RewriteAll(es, shadowed) == es
    decreases es
  {
    if es != [] {
      NoSitesNoChange(es[0], shadowed);
      NoSitesNoChangeInAll(es[1..], shadowed);
      assert es == [es[0]] + es[1..];
    }
  }

  /** Wrapping is idempotent, and a file that binds `tokio` is left alone. */
  lemma {:induction false} WrappingIsDoneOnce(e: Expr, shadowed: bool)
    ensures Rewrite(Rewrite(e, shadowed), shadowed) == Rewrite(e, shadowed)
    ensures shadowed ==> Rewrite(e, shadowed) == e
  {
    hide Rewrite, Sites;
    NothingLeftToWrap(e, shadowed);
    NoSitesNoChange(Rewrite(e, shadowed), shadowed);
    if shadowed {
      ShadowedHasNoSites(e);
      NoSitesNoChange(e, shadowed);
    }
  }

  lemma {:induction false} ShadowedHasNoSites(e: Expr)
    ensures Sites(e, true) == 0
    decreases e
  {
    match e
    case PathExpr(_) =>
    case Call(func, args) =>
      ShadowedHasNoSites(func);
      ShadowedHaveNoSites(args);
    case Paren(inner) => ShadowedHasNoSites(inner);
    case Group(inner) => ShadowedHasNoSites(inner);
    case Node(parts) => ShadowedHaveNoSites(parts);
  }

  lemma {:induction false} ShadowedHaveNoSites(es: seq<Expr>)
    ensures AllSites(es, true) == 0
    decreases es
  {
    if es != [] {
      ShadowedHasNoSites(es[0]);
      ShadowedHaveNoSites(es[1..]);
    }
  }
}
