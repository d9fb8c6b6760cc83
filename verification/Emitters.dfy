/**
  The text of the three emitters, and that each of them meets what the planner's laws ask of an
  emitter: every body opens with the anchor comment, spawn wrappers are never emitted bare, and
  well-formed names give well-formed text
  (cargo-instrument/src/transform.rs:99-112, 735-876, 913-1082).

  An emitter is its anchor line with the code that follows it, and the code of its suffix, built from
  pieces; all that matters about the code is that it is ASCII with well-formed values put in and that
  a suffix starts on a line of its own. The newer entry point is reached by five textual replacements
  in the finished prefix; that they leave the anchor line alone is shown from the first three bytes
  of each pattern.
 */
module Emitters {
  import opened Basics
  import opened Bytes
  import opened Planner
  import opened PlanSafety
  import opened SecondPass
  import opened SpawnBrackets

  /** A piece of emitted code: one line, more of the same line, or a value put in. */
  datatype Piece = Line(code: string) | More(code: string) | Value(text: seq<byte>)

  function PieceText(nl: seq<byte>, p: Piece): seq<byte> {
    match p
    case Line(code) => nl + Ascii(code)
    case More(code) => Ascii(code)
    case Value(text) => text
  }

  function Text(nl: seq<byte>, ps: seq<Piece>): seq<byte> {
    if ps == [] then [] else PieceText(nl, ps[0]) + Text(nl, ps[1..])
  }

  /** What the laws of plans ask of an emitter for these candidates. */
  ghost predicate MeetsLaws(em: Emitter, cs: seq<Candidate>) {
    AnchorsEveryBody(em) && NoBrackets(em) && EmitsUtf8(em, cs)
  }

  // ---------------------------------------------------------------------------
  // Emitters
  // ---------------------------------------------------------------------------

  /** The code of an emitter: what follows the anchor, and what comes before the closing brace. */
  datatype Code = Code(body: Candidate -> seq<Piece>, suffix: Candidate -> seq<Piece>)

  /** Every value put in is well-formed; the rest is ASCII. */
  ghost predicate Fine(ps: seq<Piece>) { forall p :: p in ps && p.Value? ==> Utf8(p.text) }

  predicate Indented(code: string) { |code| > 2 && code[1] == ' ' && code[2] == ' ' }

  /** A suffix that is not empty starts with an indented line. */
  predicate StartsLine(ps: seq<Piece>) { ps != [] ==> ps[0].Line? && Indented(ps[0].code) }

  ghost predicate Proper(code: Code, cs: seq<Candidate>) {
    && (forall c :: StartsLine(code.suffix(c)))
    && (forall c :: c in cs ==> Utf8(c.name) && Fine(code.body(c)) && Fine(code.suffix(c)))
  }

  function Generated(nl: seq<byte>, code: Code, c: Candidate): seq<byte> {
    AnchoredText(nl, c.name, Text(nl, code.body(c)))
  }

  /** `SentinelEmitter`, `NativeOtelEmitter` and, without metadata, `TrampolineEmitter`. */
  function Direct(nl: seq<byte>, code: Code, handlesAsync: bool, handlesSpawn: bool): Emitter {
    Emitter((c: Candidate) => Generated(nl, code, c), (c: Candidate) => Text(nl, code.suffix(c)),
            handlesAsync, handlesSpawn)
  }

  const SENTINEL := Code(_ => [Line("    let _cargo_instrument_sentinel = ();")], _ => [])

  /** `SentinelEmitter`: all of its code. */
  function Sentinel(nl: seq<byte>): Emitter { Direct(nl, SENTINEL, true, false) }

  /** The values the newer entry point needs; both are quoted already. */
  datatype Options = Options(scope: seq<byte>, file: seq<byte>)

  /** The replacements for the newer entry point, in order; `line` is the line number in decimal. */
  function MetadataRules(nl: seq<byte>, o: Options, line: seq<byte>): (r: seq<Rule<byte>>)
    ensures forall i :: 0 <= i < |r| ==> r[i].pattern != []
  {
    [ Rule(Ascii("__otel_span_enter("), Text(nl, [More("__otel_span_enter_v2(")])),
      Rule(Ascii("name: *const u8,"), Text(nl, NamePieces())),
      Rule(Ascii("__otel_name.as_ptr(),"), Text(nl, PointerPieces(o))),
      Rule(Ascii("let __otel_file = file!();"), Text(nl, [More("let __otel_file = "), Value(o.file), More(";")])),
      Rule(Ascii("line!(),"), Text(nl, [Value(line), More("u32,")]))]
  }

  function NamePieces(): seq<Piece> {
    [More("scope: *const u8, scope_len: usize,"), Line("            name: *const u8,")]
  }

  function PointerPieces(o: Options): seq<Piece> {
    [Value(o.scope), More(".as_ptr(), "), Value(o.scope), More(".len(),"), Line("            __otel_name.as_ptr(),")]
  }

  function ReplaceAll(rules: seq<Rule<byte>>, s: seq<byte>): seq<byte>
    requires forall i :: 0 <= i < |rules| ==> rules[i].pattern != []
  {
    if rules == [] then s else ReplaceAll(rules[1..], Replace(rules[0], s))
  }

  /** `TrampolineEmitter` with metadata; `line` gives the decimal line number of a candidate. */
  function Upgraded(nl: seq<byte>, code: Code, o: Options, line: Candidate -> seq<byte>): Emitter {
    Emitter((c: Candidate) => ReplaceAll(MetadataRules(nl, o, line(c)), Generated(nl, code, c)),
            (c: Candidate) => Text(nl, code.suffix(c)), false, false)
  }

  // ---------------------------------------------------------------------------
  // Well-formed text
  // ---------------------------------------------------------------------------

  lemma PieceIsUtf8(nl: seq<byte>, p: Piece)
    requires nl in {LF, CRLF} && (p.Value? ==> Utf8(p.text))
    ensures Utf8(PieceText(nl, p))
  {
    hide Utf8;
    match p
    case Line(code) =>
      AsciiIsUtf8(nl);
      AsciiIsUtf8(Ascii(code));
      Utf8Concat(nl, Ascii(code));
    case More(code) => AsciiIsUtf8(Ascii(code));
    case Value(_) =>
  }

  lemma {:induction false} TextIsUtf8(nl: seq<byte>, ps: seq<Piece>)
    requires nl in {LF, CRLF} && Fine(ps)
    ensures Utf8(Text(nl, ps))
  {
    hide Utf8, PieceText;
    if ps == [] {
      AsciiIsUtf8([]);
    } else {
      assert ps[0] in ps;
      PieceIsUtf8(nl, ps[0]);
      TextIsUtf8(nl, ps[1..]);
      Utf8Concat(PieceText(nl, ps[0]), Text(nl, ps[1..]));
    }
  }

  lemma AnchoredTextIsUtf8(nl: seq<byte>, name: seq<byte>, code: seq<byte>)
    requires nl in {LF, CRLF} && Utf8(name) && Utf8(code)
    ensures Utf8(AnchoredText(nl, name, code))
  {
    hide Utf8, Ascii;
    AsciiIsUtf8(nl);
    AsciiIsUtf8(Ascii("    "));
    AsciiIsUtf8(ANCHOR);
    AsciiIsUtf8(Ascii(" \""));
    AsciiIsUtf8(Ascii("\" "));
    AsciiIsUtf8(COMMENT_END);
    Utf8Concat(nl, Ascii("    "));
    Utf8Concat(nl + Ascii("    "), ANCHOR);
    Utf8Concat(Ascii(" \""), name);
    Utf8Concat(Ascii(" \"") + name, Ascii("\" "));
    Utf8Concat(Ascii(" \"") + name + Ascii("\" "), COMMENT_END);
    Utf8Concat(Ascii(" \"") + name + Ascii("\" ") + COMMENT_END, code);
    Utf8Concat(nl + Ascii("    ") + ANCHOR, Ascii(" \"") + name + Ascii("\" ") + COMMENT_END + code);
  }

  // ---------------------------------------------------------------------------
  // No bare spawn wrappers
  // ---------------------------------------------------------------------------

  lemma FourthOfWrappers()
    ensures SPAWN_OPEN[3] == 0x6E && SPAWN_CLOSE[3] == 0x70
  {
    AsciiAt("opentelemetry::trace::FutureExt::with_context(", 3, 'n');
    AsciiAt(", opentelemetry::Context::current())", 3, 'p');
  }

  /** Text that is empty or opens with an indented line is no spawn wrapper. */
  lemma IndentedIsNoWrapper(s: seq<byte>)
    requires s != [] ==> |s| > 3 && s[3] == 0x20
    ensures s !in {SPAWN_OPEN, SPAWN_CLOSE}
  {
    hide SPAWN_OPEN, SPAWN_CLOSE;
    FourthOfWrappers();
    WrappersAreLong();
  }

  lemma WrappersAreLong()
    ensures |SPAWN_OPEN| > 3 && |SPAWN_CLOSE| > 3
  {
  }

  lemma IndentedLine(nl: seq<byte>, code: string, rest: seq<byte>)
    requires nl in {LF, CRLF} && Indented(code)
    ensures |nl + Ascii(code) + rest| > 3 && (nl + Ascii(code) + rest)[3] == 0x20
  {
    hide Ascii;
    AsciiAt(code, 1, ' ');
    AsciiAt(code, 2, ' ');
  }

  lemma TextIsNoWrapper(nl: seq<byte>, ps: seq<Piece>)
    requires nl in {LF, CRLF} && StartsLine(ps)
    ensures Text(nl, ps) !in {SPAWN_OPEN, SPAWN_CLOSE}
  {
    hide Ascii, SPAWN_OPEN, SPAWN_CLOSE;
    if ps != [] { IndentedLine(nl, ps[0].code, Text(nl, ps[1..])); }
    IndentedIsNoWrapper(Text(nl, ps));
  }

  lemma AnchorLineIsNoWrapper(nl: seq<byte>, after: seq<byte>)
    requires nl in {LF, CRLF}
    ensures AnchorLine(nl) + after !in {SPAWN_OPEN, SPAWN_CLOSE}
  {
    hide Ascii, SPAWN_OPEN, SPAWN_CLOSE, ANCHOR;
    IndentedLine(nl, "    ", ANCHOR + after);
    assert AnchorLine(nl) + after == nl + Ascii("    ") + (ANCHOR + after);
    IndentedIsNoWrapper(AnchorLine(nl) + after);
  }

  lemma AnchoredTextIsNoWrapper(nl: seq<byte>, name: seq<byte>, code: seq<byte>)
    requires nl in {LF, CRLF}
    ensures AnchoredText(nl, name, code) !in {SPAWN_OPEN, SPAWN_CLOSE}
  {
    hide Ascii, SPAWN_OPEN, SPAWN_CLOSE, ANCHOR;
    AnchorLineIsNoWrapper(nl, Ascii(" \"") + name + Ascii("\" ") + COMMENT_END + code);
  }

  // ---------------------------------------------------------------------------
  // Emitters without replacements
  // ---------------------------------------------------------------------------

  lemma GeneratedIsUtf8(nl: seq<byte>, code: Code, cs: seq<Candidate>, c: Candidate)
    requires nl in {LF, CRLF} && Proper(code, cs) && c in cs
    ensures Utf8(Generated(nl, code, c)) && Utf8(Text(nl, code.suffix(c)))
  {
    hide Utf8, Text, AnchoredText, Fine, StartsLine;
    TextIsUtf8(nl, code.body(c));
    AnchoredTextIsUtf8(nl, c.name, Text(nl, code.body(c)));
    TextIsUtf8(nl, code.suffix(c));
  }

  /** With any proper code, the three emitters meet the laws. */
  lemma DirectMeetsLaws(nl: seq<byte>, code: Code, handlesAsync: bool, handlesSpawn: bool, cs: seq<Candidate>)
    requires nl in {LF, CRLF} && Proper(code, cs)
    ensures MeetsLaws(Direct(nl, code, handlesAsync, handlesSpawn), cs)
  {
    hide Utf8, Ascii, AnchoredText, OpensWithAnchor, Text, Fine, StartsLine;
    var em := Direct(nl, code, handlesAsync, handlesSpawn);
    forall c
      ensures OpensWithAnchor(em.prefix(c))
      ensures em.prefix(c) !in {SPAWN_OPEN, SPAWN_CLOSE} && em.suffix(c) !in {SPAWN_OPEN, SPAWN_CLOSE}
    {
      AnchoredTextOpens(nl, c.name, Text(nl, code.body(c)));
      AnchoredTextIsNoWrapper(nl, c.name, Text(nl, code.body(c)));
      TextIsNoWrapper(nl, code.suffix(c));
    }
    forall c | c in cs ensures Utf8(em.prefix(c)) && Utf8(em.suffix(c)) { GeneratedIsUtf8(nl, code, cs, c); }
  }

  lemma SentinelMeetsLaws(nl: seq<byte>, cs: seq<Candidate>)
    requires nl in {LF, CRLF} && forall c :: c in cs ==> Utf8(c.name)
    ensures MeetsLaws(Sentinel(nl), cs)
  {
    hide Utf8, MeetsLaws;
    DirectMeetsLaws(nl, SENTINEL, true, false, cs);
  }

  // ---------------------------------------------------------------------------
  // Replacements
  // ---------------------------------------------------------------------------

  /** No occurrence of p starts in h, whatever follows h. */
  ghost predicate Transparent(p: seq<byte>, h: seq<byte>) {
    forall i :: 0 <= i < |h| ==> Differs(p, h, i)
  }

  ghost predicate Differs(p: seq<byte>, h: seq<byte>, i: nat) {
    exists j :: 0 <= j < |p| && i + j < |h| && h[i + j] != p[j]
  }

  lemma TransparentTail(p: seq<byte>, h: seq<byte>)
    requires Transparent(p, h) && h != []
    ensures Transparent(p, h[1..])
  {
    forall i | 0 <= i < |h[1..]| ensures Differs(p, h[1..], i) {
      assert Differs(p, h, i + 1);
      var j :| 0 <= j < |p| && i + 1 + j < |h| && h[i + 1 + j] != p[j];
      assert h[1..][i + j] == h[i + 1 + j];
    }
  }

  lemma TooShort(r: Rule<byte>, s: seq<byte>)
    requires r.pattern != [] && |s| < |r.pattern|
    ensures Replace(r, s) == s
  {
  }

  lemma SkipOne(r: Rule<byte>, s: seq<byte>)
    requires r.pattern != [] && |s| >= |r.pattern| && !(r.pattern <= s)
    ensures Replace(r, s) == [s[0]] + Replace(r, s[1..])
  {
  }

  /** A replacement leaves such text in front alone. */
  lemma {:induction false} ReplaceKeepsHead(r: Rule<byte>, h: seq<byte>, rest: seq<byte>)
    requires r.pattern != [] && Transparent(r.pattern, h)
    ensures Replace(r, h + rest) == h + Replace(r, rest)
    decreases |h|
  {
    hide Replace, Differs;
    if h == [] {
      assert h + rest == rest;
    } else if |h + rest| < |r.pattern| {
      TooShort(r, h + rest);
      TooShort(r, rest);
    } else {
      TransparentTail(r.pattern, h);
      ReplaceKeepsHead(r, h[1..], rest);
      NotThere(r.pattern, h, rest);
      SkipOne(r, h + rest);
      assert (h + rest)[1..] == h[1..] + rest && (h + rest)[0] == h[0];
      assert [h[0]] + (h[1..] + Replace(r, rest)) == h + Replace(r, rest);
    }
  }

  lemma NotThere(p: seq<byte>, h: seq<byte>, rest: seq<byte>)
    requires Differs(p, h, 0)
    ensures !(p <= h + rest)
  {
    var j :| 0 <= j < |p| && 0 + j < |h| && h[0 + j] != p[j];
    assert (h + rest)[j] == h[j];
  }

  lemma ContainsLater<T>(a: seq<T>, s: seq<T>, t: seq<T>)
    requires Contains(s, t)
    ensures Contains(a + s, t)
  {
    var i :| 0 <= i <= |s| && t <= s[i..];
    assert (a + s)[|a| + i..] == s[i..];
  }

  /** An occurrence of two bytes that no occurrence of the pattern can overlap. */
  ghost predicate Spares(p: seq<byte>, a: byte, b: byte) { p != [] && b !in p && p[|p| - 1] != a }

  lemma OccursPast(p: seq<byte>, s: seq<byte>, a: byte, b: byte)
    requires Spares(p, a, b) && p <= s && Contains(s, [a, b])
    ensures Contains(s[|p|..], [a, b])
  {
    var i :| 0 <= i <= |s| && [a, b] <= s[i..];
    assert s[i] == s[i..][0] == a && s[i + 1] == s[i..][1] == b;
    forall k | 0 <= k < |p| ensures s[k] == p[k] && p[k] in p {}
    assert i >= |p|;
    assert s[|p|..][i - |p|..] == s[i..];
  }

  lemma OccursNext(s: seq<byte>, a: byte, b: byte)
    requires Contains(s, [a, b]) && s != [] && !([a, b] <= s)
    ensures Contains(s[1..], [a, b])
  {
    var i :| 0 <= i <= |s| && [a, b] <= s[i..];
    assert i > 0 && s[1..][i - 1..] == s[i..];
  }

  lemma {:induction false} ReplaceKeepsContained(r: Rule<byte>, s: seq<byte>, a: byte, b: byte)
    requires Spares(r.pattern, a, b) && Contains(s, [a, b])
    ensures Contains(Replace(r, s), [a, b])
    decreases |s|
  {
    hide Contains;
    if |s| < |r.pattern| {
    } else if r.pattern <= s {
      var rest := s[|r.pattern|..];
      OccursPast(r.pattern, s, a, b);
      ReplaceKeepsContained(r, rest, a, b);
      ContainsLater(r.into, Replace(r, rest), [a, b]);
    } else if [a, b] <= s {
      KeptPair(r, s, a, b);
      AtStart(Replace(r, s), [a, b]);
    } else {
      OccursNext(s, a, b);
      ReplaceKeepsContained(r, s[1..], a, b);
      ContainsLater([s[0]], Replace(r, s[1..]), [a, b]);
    }
  }

  lemma {:induction false} KeptPair(r: Rule<byte>, s: seq<byte>, a: byte, b: byte)
    requires Spares(r.pattern, a, b) && [a, b] <= s && |s| >= |r.pattern| && !(r.pattern <= s)
    ensures [a, b] <= Replace(r, s)
  {
    assert s[0] == a && s[1] == b && s[1..][0] == b;
    assert r.pattern[0] != b by { assert r.pattern[0] in r.pattern; }
    assert !(r.pattern <= s[1..]);
  }

  lemma {:induction false} ReplaceSkips(r: Rule<byte>, s: seq<byte>, n: nat)
    requires r.pattern != [] && r.pattern[0] < 0x80 && n <= |s| && forall i :: 0 <= i < n ==> s[i] >= 0x80
    ensures Replace(r, s) == s[..n] + Replace(r, s[n..])
    decreases n
  {
    hide Replace;
    if n == 0 {
      assert s[0..] == s;
    } else if |s| < |r.pattern| {
      TooShort(r, s);
      TooShort(r, s[n..]);
    } else {
      var tail := s[1..];
      assert forall i :: 0 <= i < n - 1 ==> tail[i] == s[i + 1];
      ReplaceSkips(r, tail, n - 1);
      assert !(r.pattern <= s) by { assert s[0] != r.pattern[0]; }
      SkipOne(r, s);
      assert tail[n - 1..] == s[n..];
      assert [s[0]] + (tail[..n - 1] + Replace(r, s[n..])) == ([s[0]] + tail[..n - 1]) + Replace(r, s[n..]);
      assert [s[0]] + tail[..n - 1] == s[..n];
    }
  }

  lemma {:induction false} Utf8Character(s: seq<byte>)
    requires Utf8(s) && s != []
    ensures var n := CharLen(s); 0 < n <= |s| && Utf8(s[..n]) && Utf8(s[n..])
  {
    var n := CharLen(s);
    CharLenIsWithin(s, n);
    assert s[..n][n..] == [];
  }

  /** Replacing an ASCII pattern keeps text well-formed. */
  lemma {:induction false} ReplaceKeepsUtf8(r: Rule<byte>, s: seq<byte>)
    requires r.pattern != [] && (forall i :: 0 <= i < |r.pattern| ==> r.pattern[i] < 0x80) && Utf8(r.into) && Utf8(s)
    ensures Utf8(Replace(r, s))
    decreases |s|
  {
    hide Utf8, CharLen, CharBoundary;
    var k := |r.pattern|;
    if |s| < k {
    } else if r.pattern <= s {
      AsciiEndsCharacter(s, k - 1);
      Utf8Split(s, k);
      ReplaceKeepsUtf8(r, s[k..]);
      Utf8Concat(r.into, Replace(r, s[k..]));
    } else {
      Utf8Character(s);
      var n := CharLen(s);
      ReplaceKeepsUtf8(r, s[n..]);
      Utf8Concat(s[..n], Replace(r, s[n..]));
      ReplaceCharacter(r, s);
    }
  }

  lemma {:induction false} ReplaceCharacter(r: Rule<byte>, s: seq<byte>)
    requires Utf8(s) && s != [] && r.pattern != [] && r.pattern[0] < 0x80 && |s| >= |r.pattern| && !(r.pattern <= s)
    ensures Replace(r, s) == s[..CharLen(s)] + Replace(r, s[CharLen(s)..])
  {
    hide Utf8;
    Utf8Unstep(s);
    var n := CharLen(s);
    if n > 1 {
      ReplaceSkips(r, s, n);
    } else {
      assert s[..1] == [s[0]];
    }
  }

  // ---------------------------------------------------------------------------
  // The trampoline emitter
  // ---------------------------------------------------------------------------

  const STAR: byte := 0x2A
  const SLASH: byte := 0x2F

  /** What each replacement of the newer entry point must leave alone: the anchor line and the end of its comment. */
  ghost predicate Harmless(r: Rule<byte>, h: seq<byte>) {
    && (forall i :: 0 <= i < |r.pattern| ==> r.pattern[i] < 0x80) && Utf8(r.into)
    && Transparent(r.pattern, h) && Spares(r.pattern, STAR, SLASH)
  }

  ghost predicate AllHarmless(rules: seq<Rule<byte>>, h: seq<byte>) {
    forall i :: 0 <= i < |rules| ==> rules[i].pattern != [] && Harmless(rules[i], h)
  }

  lemma {:induction false} ReplacementsKeep(rules: seq<Rule<byte>>, h: seq<byte>, rest: seq<byte>)
    requires AllHarmless(rules, h) && Contains(rest, [STAR, SLASH])
    ensures exists after :: ReplaceAll(rules, h + rest) == h + after && Contains(after, [STAR, SLASH])
    ensures Utf8(h + rest) ==> Utf8(ReplaceAll(rules, h + rest))
    decreases |rules|
  {
    hide Contains, Utf8, Transparent, Spares, Replace;
    if rules != [] {
      assert Harmless(rules[0], h);
      ReplaceKeepsHead(rules[0], h, rest);
      ReplaceKeepsContained(rules[0], rest, STAR, SLASH);
      if Utf8(h + rest) { ReplaceKeepsUtf8(rules[0], h + rest); }
      ReplacementsKeep(rules[1..], h, Replace(rules[0], rest));
    }
  }

  // The first three bytes decide whether a pattern can start in the anchor line.

  predicate ClearAt(h: seq<byte>, i: nat, x: byte, y: byte, z: byte)
    requires i < |h|
  {
    h[i] != x || (i + 1 < |h| && h[i + 1] != y) || (i + 2 < |h| && h[i + 2] != z)
  }

  ghost predicate Clear(h: seq<byte>, x: byte, y: byte, z: byte) { forall i :: 0 <= i < |h| ==> ClearAt(h, i, x, y, z) }

  lemma ClearIsTransparent(p: seq<byte>, h: seq<byte>)
    requires |p| >= 3 && Clear(h, p[0], p[1], p[2])
    ensures Transparent(p, h)
  {
    forall i | 0 <= i < |h| ensures Differs(p, h, i) {
      assert ClearAt(h, i, p[0], p[1], p[2]);
      if h[i] != p[0] {
        assert h[i + 0] != p[0];
      } else if i + 1 < |h| && h[i + 1] != p[1] {
      } else {
        assert h[i + 2] != p[2];
      }
    }
  }

  const ANCHOR_TEXT := "/* __cargo_instrument_anchor:"

  lemma AsciiAt(s: string, i: nat, c: char)
    requires i < |s| && c < 128 as char && c != '?'
    ensures Ascii(s)[i] == c as int as byte <==> s[i] == c
  {
  }

  lemma AnchorHasNoL()
    ensures forall i :: 0 <= i < |ANCHOR_TEXT| ==> ANCHOR_TEXT[i] != 'l'
  {
  }

  lemma AnchorUnderscores()
    ensures forall i :: 0 <= i < |ANCHOR_TEXT| && ANCHOR_TEXT[i] == '_' ==> i in {3, 4, 10, 21}
    ensures ANCHOR_TEXT[5] == 'c' && ANCHOR_TEXT[11] == 'i' && ANCHOR_TEXT[22] == 'a'
  {
  }

  lemma AnchorNs()
    ensures forall i :: 0 <= i < |ANCHOR_TEXT| && ANCHOR_TEXT[i] == 'n' ==> i in {12, 19, 23}
    ensures ANCHOR_TEXT[13] == 's' && ANCHOR_TEXT[20] == 't' && ANCHOR_TEXT[24] == 'c'
  {
  }

  lemma AnchorLength()
    ensures |ANCHOR| == |ANCHOR_TEXT| == 29
  {
  }

  lemma AnchorByte(i: nat, c: char)
    requires i < |ANCHOR_TEXT| && c < 128 as char && c != '?'
    ensures |ANCHOR| == |ANCHOR_TEXT| && (ANCHOR[i] == c as int as byte <==> ANCHOR_TEXT[i] == c)
  {
    hide Ascii;
    AsciiAt(ANCHOR_TEXT, i, c);
  }

  lemma AnchorIsClearOfL(y: byte, z: byte)
    ensures Clear(ANCHOR, 0x6C, y, z)
  {
    hide Ascii, ANCHOR_TEXT, ANCHOR;
    AnchorLength();
    AnchorByte(0, 'l');
    AnchorHasNoL();
    forall i | 0 <= i < |ANCHOR| ensures ANCHOR[i] != 0x6C { AnchorByte(i, 'l'); }
  }

  lemma AnchorIsClearOfUnderscores()
    ensures Clear(ANCHOR, 0x5F, 0x5F, 0x6F)
  {
    hide Ascii, ANCHOR_TEXT, ANCHOR;
    AnchorLength();
    AnchorUnderscores();
    AnchorByte(5, 'c');
    AnchorByte(11, 'i');
    AnchorByte(22, 'a');
    forall i | 0 <= i < |ANCHOR| ensures ANCHOR[i] == 0x5F ==> i in {3, 4, 10, 21} { AnchorByte(i, '_'); }
  }

  lemma AnchorIsClearOfName()
    ensures Clear(ANCHOR, 0x6E, 0x61, 0x6D)
  {
    hide Ascii, ANCHOR_TEXT, ANCHOR;
    AnchorLength();
    AnchorNs();
    AnchorByte(13, 's');
    AnchorByte(20, 't');
    AnchorByte(24, 'c');
    forall i | 0 <= i < |ANCHOR| ensures ANCHOR[i] == 0x6E ==> i in {12, 19, 23} { AnchorByte(i, 'n'); }
  }

  /** Blanks and the anchor in front of a body. */
  function AnchorLine(nl: seq<byte>): seq<byte> { nl + Ascii("    ") + ANCHOR }

  lemma ClearConcat(a: seq<byte>, b: seq<byte>, x: byte, y: byte, z: byte)
    requires Clear(b, x, y, z) && forall i :: 0 <= i < |a| ==> a[i] != x
    ensures Clear(a + b, x, y, z)
  {
    var h := a + b;
    forall i | 0 <= i < |h| ensures ClearAt(h, i, x, y, z) {
      if i >= |a| {
        var k := i - |a|;
        assert ClearAt(b, k, x, y, z) && h[i] == b[k];
        assert k + 1 < |b| ==> h[i + 1] == b[k + 1];
        assert k + 2 < |b| ==> h[i + 2] == b[k + 2];
      }
    }
  }

  lemma LineIsTransparent(nl: seq<byte>, p: seq<byte>)
    requires nl in {LF, CRLF} && |p| >= 3 && Clear(ANCHOR, p[0], p[1], p[2]) && p[0] > 0x20
    ensures Transparent(p, AnchorLine(nl))
  {
    hide Clear, ANCHOR, Transparent;
    BlankIndent(nl);
    var w := nl + Ascii("    ");
    forall i | 0 <= i < |w| ensures w[i] != p[0] { assert Blank(w[i]); }
    ClearConcat(w, ANCHOR, p[0], p[1], p[2]);
    ClearIsTransparent(p, AnchorLine(nl));
  }

  lemma EnterRule(nl: seq<byte>, into: seq<byte>)
    requires nl in {LF, CRLF} && Utf8(into)
    ensures Harmless(Rule(Ascii("__otel_span_enter("), into), AnchorLine(nl))
  {
    hide Utf8, Clear, ANCHOR, Transparent, AnchorLine;
    var p := Ascii("__otel_span_enter(");
    assert p[0] == 0x5F && p[1] == 0x5F && p[2] == 0x6F && p[|p| - 1] == 0x28;
    AnchorIsClearOfUnderscores();
    LineIsTransparent(nl, p);
    NoSlash("__otel_span_enter(");
  }

  lemma NoSlash(s: string)
    requires forall i :: 0 <= i < |s| ==> s[i] != '/'
    ensures SLASH !in Ascii(s)
  {
    hide Ascii;
    forall i | 0 <= i < |s| ensures Ascii(s)[i] != SLASH { AsciiAt(s, i, '/'); }
  }

  lemma NameRule(nl: seq<byte>, into: seq<byte>)
    requires nl in {LF, CRLF} && Utf8(into)
    ensures Harmless(Rule(Ascii("name: *const u8,"), into), AnchorLine(nl))
  {
    hide Utf8, Clear, ANCHOR, Transparent, AnchorLine;
    var p := Ascii("name: *const u8,");
    assert p[0] == 0x6E && p[1] == 0x61 && p[2] == 0x6D && p[|p| - 1] == 0x2C;
    AnchorIsClearOfName();
    LineIsTransparent(nl, p);
    NoSlash("name: *const u8,");
  }

  lemma PointerRule(nl: seq<byte>, into: seq<byte>)
    requires nl in {LF, CRLF} && Utf8(into)
    ensures Harmless(Rule(Ascii("__otel_name.as_ptr(),"), into), AnchorLine(nl))
  {
    hide Utf8, Clear, ANCHOR, Transparent, AnchorLine;
    var p := Ascii("__otel_name.as_ptr(),");
    assert p[0] == 0x5F && p[1] == 0x5F && p[2] == 0x6F && p[|p| - 1] == 0x2C;
    AnchorIsClearOfUnderscores();
    LineIsTransparent(nl, p);
    NoSlash("__otel_name.as_ptr(),");
  }

  lemma FileRule(nl: seq<byte>, into: seq<byte>)
    requires nl in {LF, CRLF} && Utf8(into)
    ensures Harmless(Rule(Ascii("let __otel_file = file!();"), into), AnchorLine(nl))
  {
    hide Utf8, Clear, ANCHOR, Transparent, AnchorLine;
    var p := Ascii("let __otel_file = file!();");
    assert p[0] == 0x6C && p[|p| - 1] == 0x3B;
    AnchorIsClearOfL(p[1], p[2]);
    LineIsTransparent(nl, p);
    NoSlash("let __otel_file = file!();");
  }

  lemma LineRule(nl: seq<byte>, into: seq<byte>)
    requires nl in {LF, CRLF} && Utf8(into)
    ensures Harmless(Rule(Ascii("line!(),"), into), AnchorLine(nl))
  {
    hide Utf8, Clear, ANCHOR, Transparent, AnchorLine;
    var p := Ascii("line!(),");
    assert p[0] == 0x6C && p[|p| - 1] == 0x2C;
    AnchorIsClearOfL(p[1], p[2]);
    LineIsTransparent(nl, p);
    NoSlash("line!(),");
  }

  /** Every value the emitter puts in is well-formed. */
  ghost predicate Utf8Options(o: Options) { Utf8(o.scope) && Utf8(o.file) }

  lemma RulesAreHarmless(nl: seq<byte>, o: Options, line: seq<byte>)
    requires nl in {LF, CRLF} && Utf8Options(o) && Utf8(line)
    ensures AllHarmless(MetadataRules(nl, o, line), AnchorLine(nl))
  {
    hide Utf8, Ascii, Text, Harmless, AnchorLine;
    TextIsUtf8(nl, [More("__otel_span_enter_v2(")]);
    EnterRule(nl, Text(nl, [More("__otel_span_enter_v2(")]));
    TextIsUtf8(nl, NamePieces());
    NameRule(nl, Text(nl, NamePieces()));
    TextIsUtf8(nl, PointerPieces(o));
    PointerRule(nl, Text(nl, PointerPieces(o)));
    var file := [More("let __otel_file = "), Value(o.file), More(";")];
    TextIsUtf8(nl, file);
    FileRule(nl, Text(nl, file));
    var number := [Value(line), More("u32,")];
    TextIsUtf8(nl, number);
    LineRule(nl, Text(nl, number));
  }

  lemma CommentEndIs()
    ensures COMMENT_END == [STAR, SLASH]
  {
    assert "*/"[0] == '*' && "*/"[1] == '/';
  }

  /** The body of a prefix after its anchor line. */
  function AfterAnchor(name: seq<byte>, code: seq<byte>): seq<byte> {
    Ascii(" \"") + name + Ascii("\" ") + COMMENT_END + code
  }

  lemma AfterAnchorCloses(name: seq<byte>, code: seq<byte>)
    ensures Contains(AfterAnchor(name, code), [STAR, SLASH])
  {
    hide Ascii, Contains, COMMENT_END;
    CommentEndIs();
    ContainsMiddle(Ascii(" \"") + name + Ascii("\" "), COMMENT_END, code);
  }

  lemma AnchorLineOpens(nl: seq<byte>, after: seq<byte>)
    requires nl in {LF, CRLF} && Contains(after, [STAR, SLASH])
    ensures OpensWithAnchor(AnchorLine(nl) + after) && AnchorLine(nl) + after !in {SPAWN_OPEN, SPAWN_CLOSE}
  {
    hide Ascii, Contains, SPAWN_OPEN, SPAWN_CLOSE, ANCHOR, COMMENT_END;
    CommentEndIs();
    BlankIndent(nl);
    assert AnchorLine(nl) + after == (nl + Ascii("    ")) + ANCHOR + after;
    AnchorLineIsNoWrapper(nl, after);
  }

  /** After the replacements the anchor line is still in front and its comment closed. */
  lemma ReplacedOpens(nl: seq<byte>, o: Options, line: seq<byte>, code: Code, c: Candidate)
    requires nl in {LF, CRLF} && Utf8Options(o) && Utf8(line)
    ensures var s := ReplaceAll(MetadataRules(nl, o, line), Generated(nl, code, c));
            && OpensWithAnchor(s) && s !in {SPAWN_OPEN, SPAWN_CLOSE}
            && (Utf8(Generated(nl, code, c)) ==> Utf8(s))
  {
    hide Ascii, Contains, SPAWN_OPEN, SPAWN_CLOSE, ANCHOR, COMMENT_END, Utf8, Text, OpensWithAnchor, MetadataRules,
         AllHarmless, ReplaceAll, Utf8Options;
    var rest := AfterAnchor(c.name, Text(nl, code.body(c)));
    AfterAnchorCloses(c.name, Text(nl, code.body(c)));
    assert Generated(nl, code, c) == AnchorLine(nl) + rest;
    RulesAreHarmless(nl, o, line);
    ReplacementsKeep(MetadataRules(nl, o, line), AnchorLine(nl), rest);
    var after :| ReplaceAll(MetadataRules(nl, o, line), AnchorLine(nl) + rest) == AnchorLine(nl) + after
                 && Contains(after, [STAR, SLASH]);
    AnchorLineOpens(nl, after);
  }

  /** The replacements change nothing about the laws. */
  lemma UpgradedMeetsLaws(nl: seq<byte>, code: Code, o: Options, line: Candidate -> seq<byte>, cs: seq<Candidate>)
    requires nl in {LF, CRLF} && Proper(code, cs) && Utf8Options(o) && forall c :: Utf8(line(c))
    ensures MeetsLaws(Upgraded(nl, code, o, line), cs)
    ensures !Upgraded(nl, code, o, line).handlesAsync && !Upgraded(nl, code, o, line).handlesSpawn
  {
    hide Utf8, Ascii, OpensWithAnchor, Text, MetadataRules, ReplaceAll, Utf8Options, Generated, Fine, StartsLine;
    var em := Upgraded(nl, code, o, line);
    forall c
      ensures OpensWithAnchor(em.prefix(c))
      ensures em.prefix(c) !in {SPAWN_OPEN, SPAWN_CLOSE} && em.suffix(c) !in {SPAWN_OPEN, SPAWN_CLOSE}
    {
      ReplacedOpens(nl, o, line(c), code, c);
      TextIsNoWrapper(nl, code.suffix(c));
    }
    forall c | c in cs ensures Utf8(em.prefix(c)) && Utf8(em.suffix(c)) {
      GeneratedIsUtf8(nl, code, cs, c);
      ReplacedOpens(nl, o, line(c), code, c);
    }
  }
}
