/**
  Normalizing printed types and paths (cargo-instrument/src/ast.rs:762-786).

  A pass applies a fixed list of replacements in order and trims; passes are repeated until nothing
  changes. Each rule deletes whitespace and keeps every other character, so a pass either shortens
  the text or leaves it as it is: the loop ends, its result is the fixed point, and the characters
  of the printed form are all kept, in order.
 */
module TypeNames {
  import opened Basics

  const RULES: seq<Rule<char>> := [
    Rule(" :: ", "::"), Rule(":: ", "::"), Rule(" ::", "::"), Rule(" < ", "<"), Rule(" <", "<"), Rule("< ", "<"),
    Rule(" >>", ">>"), Rule(" >", ">"), Rule(" , ", ", "), Rule(" ,", ",")]

  /** `char::is_whitespace`. */
  predicate White(c: char) {
    var u := c as int;
    || 0x09 <= u <= 0x0D || u == 0x20 || u == 0x85 || u == 0xA0 || u == 0x1680 || 0x2000 <= u <= 0x200A
    || u == 0x2028 || u == 0x2029 || u == 0x202F || u == 0x205F || u == 0x3000
  }

  /** The characters that are no whitespace, in order. */
  function Ink(s: string): string { if s == "" then "" else InkOf(s[0]) + Ink(s[1..]) }

  function InkOf(c: char): string { if White(c) then "" else [c] }

  function TrimStart(s: string): (r: string)
    ensures r != "" ==> !White(r[0])
    ensures s != "" && r != "" ==> r[|r| - 1] == s[|s| - 1]
  {
    if s == "" || !White(s[0]) then s else TrimStart(s[1..])
  }

  function TrimEnd(s: string): (r: string)
    ensures r != "" ==> !White(r[|r| - 1])
    ensures r <= s
  {
    if s == "" || !White(s[|s| - 1]) then s else TrimEnd(s[..|s| - 1])
  }

  function Trim(s: string): string { TrimEnd(TrimStart(s)) }

  // ---------------------------------------------------------------------------
  // One replacement
  // ---------------------------------------------------------------------------

  /** A rule deletes whitespace only, keeps some ink and leaves inked ends inked. */
  ghost predicate Deletes(r: Rule<char>) {
    && r.pattern != "" && r.into != "" && |r.into| < |r.pattern| && Ink(r.into) == Ink(r.pattern)
    && (!White(r.pattern[0]) ==> !White(r.into[0]))
    && (!White(r.pattern[|r.pattern| - 1]) ==> !White(r.into[|r.into| - 1]))
  }

  lemma {:induction false} InkConcat(a: string, b: string)
    ensures Ink(a + b) == Ink(a) + Ink(b)
  {
    hide InkOf;
    if a == "" {
      assert a + b == b;
    } else {
      InkConcat(a[1..], b);
      assert (a + b)[1..] == a[1..] + b && (a + b)[0] == a[0];
      assert InkOf(a[0]) + (Ink(a[1..]) + Ink(b)) == (InkOf(a[0]) + Ink(a[1..])) + Ink(b);
    }
  }

  lemma NotAtStart(s: string, p: string)
    requires s != "" && !(p <= s)
    ensures Contains(s, p) <==> Contains(s[1..], p)
  {
    if Contains(s, p) {
      var i :| 0 <= i <= |s| && p <= s[i..];
      assert i > 0 && s[i..] == s[1..][i - 1..];
    }
    if Contains(s[1..], p) {
      var i :| 0 <= i <= |s[1..]| && p <= s[1..][i..];
      assert s[1..][i..] == s[i + 1..];
    }
  }

  lemma TooShort(s: string, p: string)
    requires |s| < |p|
    ensures !Contains(s, p)
  {
  }

  /** A replacement shortens the string exactly when the pattern occurs, and otherwise changes nothing. */
  lemma {:induction false} ReplaceShortens(r: Rule<char>, s: string)
    requires Deletes(r)
    ensures |Replace(r, s)| <= |s|
    ensures Contains(s, r.pattern) <==> |Replace(r, s)| < |s|
    ensures !Contains(s, r.pattern) ==> Replace(r, s) == s
    decreases |s|
  {
    hide Contains;
    if |s| < |r.pattern| {
      TooShort(s, r.pattern);
    } else if r.pattern <= s {
      AtStart(s, r.pattern);
      ReplaceShortens(r, s[|r.pattern|..]);
    } else {
      ReplaceShortens(r, s[1..]);
      NotAtStart(s, r.pattern);
    }
  }

  lemma {:induction false} ReplaceKeepsInk(r: Rule<char>, s: string)
    requires Deletes(r)
    ensures Ink(Replace(r, s)) == Ink(s)
    decreases |s|
  {
    hide InkOf;
    if |s| < |r.pattern| {
    } else if r.pattern <= s {
      var rest := s[|r.pattern|..];
      ReplaceKeepsInk(r, rest);
      InkConcat(r.into, Replace(r, rest));
      InkConcat(r.pattern, rest);
      assert s == r.pattern + rest;
    } else {
      ReplaceKeepsInk(r, s[1..]);
      InkConcat([s[0]], Replace(r, s[1..]));
      InkConcat([s[0]], s[1..]);
      assert s == [s[0]] + s[1..];
    }
  }

  /** No whitespace at either end. */
  ghost predicate Tight(s: string) { s != "" ==> !White(s[0]) && !White(s[|s| - 1]) }

  lemma {:induction false} ReplaceKeepsEnd(r: Rule<char>, s: string)
    requires Deletes(r) && s != "" && !White(s[|s| - 1])
    ensures Replace(r, s) != "" && !White(Replace(r, s)[|Replace(r, s)| - 1])
    decreases |s|
  {
    hide White, Ink, InkOf;
    if |s| < |r.pattern| {
    } else if r.pattern <= s {
      var rest := s[|r.pattern|..];
      if rest != "" { ReplaceKeepsEnd(r, rest); } else { assert s == r.pattern && Replace(r, rest) == ""; }
    } else if |s| > 1 {
      ReplaceKeepsEnd(r, s[1..]);
    }
  }

  lemma {:induction false} ReplaceKeepsTight(r: Rule<char>, s: string)
    requires Deletes(r) && Tight(s)
    ensures Tight(Replace(r, s))
  {
    hide White, Ink, InkOf;
    if s != "" {
      ReplaceKeepsEnd(r, s);
      if r.pattern <= s { assert s[0] == r.pattern[0]; }
    }
  }

  // ---------------------------------------------------------------------------
  // One pass and the whole loop
  // ---------------------------------------------------------------------------

  ghost predicate AllDelete(rules: seq<Rule<char>>) { forall i :: 0 <= i < |rules| ==> Deletes(rules[i]) }

  function Pass(rules: seq<Rule<char>>, s: string): string
    requires forall i :: 0 <= i < |rules| ==> rules[i].pattern != ""
  {
    if rules == [] then s else Pass(rules[1..], Replace(rules[0], s))
  }

  ghost predicate Clean(rules: seq<Rule<char>>, s: string) {
    forall i :: 0 <= i < |rules| ==> !Contains(s, rules[i].pattern)
  }

  /** A pass that changes anything shortens the string, and one that does not proves it clean. */
  lemma {:induction false} PassShortens(rules: seq<Rule<char>>, s: string)
    requires AllDelete(rules)
    ensures |Pass(rules, s)| <= |s|
    ensures |Pass(rules, s)| == |s| ==> Clean(rules, s) && Pass(rules, s) == s
    ensures Clean(rules, s) ==> Pass(rules, s) == s
    ensures Ink(Pass(rules, s)) == Ink(s)
    ensures Tight(s) ==> Tight(Pass(rules, s))
    decreases |rules|
  {
    hide Contains, Tight, Ink, Replace;
    if rules != [] {
      var t := Replace(rules[0], s);
      ReplaceShortens(rules[0], s);
      ReplaceKeepsInk(rules[0], s);
      if Tight(s) { ReplaceKeepsTight(rules[0], s); }
      PassShortens(rules[1..], t);
      assert rules == [rules[0]] + rules[1..];
    }
  }

  lemma InkOfSpace(s: string)
    ensures Ink(" " + s) == Ink(s)
  {
    assert (" " + s)[1..] == s;
  }

  lemma InkOfSpaceEnd(s: string)
    ensures Ink(s + " ") == Ink(s)
  {
    InkConcat(s, " ");
    assert Ink(" ") == "" by { InkOfSpace(""); assert " " + "" == " "; }
  }

  /** The pattern is the replacement with a space before it, behind it or around it. */
  predicate Padded(r: Rule<char>) {
    r.into != "" && (r.pattern == " " + r.into || r.pattern == r.into + " " || r.pattern == " " + r.into + " ")
  }

  lemma PaddedDeletes(r: Rule<char>)
    requires Padded(r)
    ensures Deletes(r)
  {
    hide Ink;
    InkOfSpace(r.into);
    InkOfSpaceEnd(r.into);
    InkOfSpaceEnd(" " + r.into);
  }

  lemma RulesArePadded()
    ensures forall i :: 0 <= i < |RULES| ==> Padded(RULES[i])
  {
    assert " :: " == " " + "::" + " " && ":: " == "::" + " " && " ::" == " " + "::";
    assert " < " == " " + "<" + " " && " <" == " " + "<" && "< " == "<" + " ";
    assert " >>" == " " + ">>" && " >" == " " + ">" && " , " == " " + ", " && " ," == " " + ",";
  }

  lemma RulesDelete()
    ensures AllDelete(RULES)
  {
    hide Deletes, Padded, RULES;
    RulesArePadded();
    forall i | 0 <= i < |RULES| ensures Deletes(RULES[i]) { PaddedDeletes(RULES[i]); }
  }

  lemma {:induction false} TrimKeepsInk(s: string)
    ensures Ink(Trim(s)) == Ink(s)
  {
    TrimStartKeepsInk(s);
    TrimEndKeepsInk(TrimStart(s));
  }

  lemma {:induction false} TrimStartKeepsInk(s: string)
    ensures Ink(TrimStart(s)) == Ink(s)
  {
    if s != "" && White(s[0]) { TrimStartKeepsInk(s[1..]); }
  }

  lemma {:induction false} TrimEndKeepsInk(s: string)
    ensures Ink(TrimEnd(s)) == Ink(s)
  {
    hide White;
    if s != "" && White(s[|s| - 1]) {
      var front := s[..|s| - 1];
      TrimEndKeepsInk(front);
      InkConcat(front, [s[|s| - 1]]);
      assert s == front + [s[|s| - 1]];
    }
  }

  lemma TrimIsTight(s: string)
    ensures Tight(Trim(s))
  {
    var t := TrimStart(s);
    if TrimEnd(t) != "" { assert TrimEnd(t)[0] == t[0]; }
  }

  lemma TightIsTrimmed(s: string)
    requires Tight(s)
    ensures Trim(s) == s
  {
  }

  lemma PassSettles(t: string)
    ensures Pass(RULES, t) == t || |Pass(RULES, t)| < |t|
  {
    hide Pass, Clean, Ink, Tight;
    RulesDelete();
    PassShortens(RULES, t);
  }

  /** What the loop reaches from t. */
  ghost function Settled(t: string): (r: string)
    ensures Pass(RULES, r) == r
    decreases |t|
  {
    PassSettles(t);
    if Pass(RULES, t) == t then t else Settled(Pass(RULES, t))
  }

  ghost function Normal(s: string): string { Settled(Trim(s)) }

  /** `normalize_type_str`: terminates because every pass that changes the string shortens it. */
  method NormalizeTypeStr(s: string) returns (out: string)
    ensures out == Normal(s)
  {
    hide Pass, Trim;
    out := Trim(s);
    var prev := "";
    RulesDelete();
    EmptySettles();
    while prev != out
      invariant Settled(out) == Normal(s)
      invariant prev == out ==> Pass(RULES, out) == out
      decreases |out| + if prev == out then 0 else 1
    {
      PassShortens(RULES, out);
      prev := out;
      out := Pass(RULES, out);
    }
  }

  lemma EmptySettles()
    ensures Pass(RULES, "") == ""
  {
    RulesDelete();
    PassShortens(RULES, "");
  }

  lemma {:induction false} SettledKeeps(t: string)
    ensures Ink(Settled(t)) == Ink(t) && (Tight(t) ==> Tight(Settled(t)))
    decreases |t|
  {
    hide Pass, Tight, Ink;
    RulesDelete();
    PassShortens(RULES, t);
    if Pass(RULES, t) != t { SettledKeeps(Pass(RULES, t)); }
  }

  /**
    The result contains none of the patterns, has the non-whitespace characters of the input in
    the same order, and normalizing it again changes nothing.
   */
  lemma {:induction false} NormalForm(s: string)
    ensures Clean(RULES, Normal(s))
    ensures Ink(Normal(s)) == Ink(s)
    ensures Tight(Normal(s)) && Normal(Normal(s)) == Normal(s)
  {
    hide Pass, Tight, Ink, Trim, Contains;
    RulesDelete();
    TrimKeepsInk(s);
    TrimIsTight(s);
    SettledKeeps(Trim(s));
    var r := Normal(s);
    PassShortens(RULES, r);
    TightIsTrimmed(r);
  }
}
