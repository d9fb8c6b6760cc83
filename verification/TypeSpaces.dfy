/**
  Which white space normalizing keeps: spaces that belong to the type, as in `dyn Fn as Trait` or
  after a comma, stay, and no new ones appear (cargo-instrument/src/ast.rs:762-786).

  A space at a path separator, at a bracket or before a comma is an artifact of printing; anywhere else
  it matters. The positions of white space are counted by the characters that are none, which
  normalizing never changes.
 */
module TypeSpaces {
  import opened Basics
  import opened TypeNames

  /** White space stands somewhere after exactly i characters that are none. */
  ghost predicate Gap(s: string, i: nat) { exists p :: 0 <= p < |s| && GapAt(s, p, i) }

  ghost predicate GapAt(s: string, p: nat, i: nat)
    requires p < |s|
  {
    White(s[p]) && |Ink(s[..p])| == i
  }

  /** No path separator or opening bracket before it; no separator, bracket or comma after it. */
  ghost predicate Matters(ink: string, i: nat) {
    && i <= |ink|
    && (i > 0 ==> ink[i - 1] !in {':', '<'})
    && (i < |ink| ==> ink[i] !in {':', '<', '>', ','})
  }

  lemma GapInFront(a: string, b: string, p: nat, i: nat)
    requires p < |a|
    ensures GapAt(a + b, p, i) <==> GapAt(a, p, i)
  {
    hide Ink, White;
    assert (a + b)[..p] == a[..p] && (a + b)[p] == a[p];
  }

  lemma GapBehind(a: string, b: string, p: nat, i: nat)
    requires p < |b|
    ensures GapAt(a + b, |a| + p, i) <==> i >= |Ink(a)| && GapAt(b, p, i - |Ink(a)|)
  {
    hide Ink, White;
    assert (a + b)[..|a| + p] == a + b[..p] && (a + b)[|a| + p] == b[p];
    InkConcat(a, b[..p]);
  }

  lemma GapConcat(a: string, b: string, i: nat)
    ensures Gap(a + b, i) <==> Gap(a, i) || (i >= |Ink(a)| && Gap(b, i - |Ink(a)|))
  {
    hide Ink, White, GapAt;
    if p :| 0 <= p < |a + b| && GapAt(a + b, p, i) {
      if p < |a| { GapInFront(a, b, p, i); } else { GapBehind(a, b, p - |a|, i); }
    }
    if p :| 0 <= p < |a| && GapAt(a, p, i) { GapInFront(a, b, p, i); }
    if i >= |Ink(a)| {
      var k := i - |Ink(a)|;
      if p :| 0 <= p < |b| && GapAt(b, p, k) { GapBehind(a, b, p, i); }
    }
  }

  lemma GapOfOne(c: char, i: nat)
    ensures Gap([c], i) <==> White(c) && i == 0
    ensures Ink([c]) == if White(c) then "" else [c]
  {
    assert [c][..0] == "" && [c][1..] == "";
    if White(c) && i == 0 { assert GapAt([c], 0, i); }
  }

  // ---------------------------------------------------------------------------
  // One replacement
  // ---------------------------------------------------------------------------

  /** A space is taken away only before a separator, bracket or comma, or after a separator or opening bracket. */
  ghost predicate Unspaces(r: Rule<char>) {
    && Padded(r) && Ink(r.into) != "" && Ink(r.into) == Ink(r.pattern)
    && (r.pattern != r.into + " " ==> Ink(r.into)[0] in {':', '<', '>', ','})
    && (r.pattern != " " + r.into ==> Ink(r.into)[|Ink(r.into)| - 1] in {':', '<'})
  }

  /** The white space of the pattern that matters is that of the replacement. */
  lemma RuleKeepsGaps(r: Rule<char>, i: nat)
    requires Unspaces(r)
    ensures Gap(r.into, i) ==> Gap(r.pattern, i)
    ensures Gap(r.pattern, i) && !Gap(r.into, i) ==>
              || (i == 0 && Ink(r.into)[0] in {':', '<', '>', ','})
              || (i == |Ink(r.into)| && Ink(r.into)[i - 1] in {':', '<'})
  {
    hide Ink, White, Gap;
    GapOfSpace();
    GapConcat(" ", r.into, i);
    GapConcat(r.into, " ", i);
    GapConcat(" " + r.into, " ", i);
    InkOfSpace(r.into);
    if i >= |Ink(r.into)| { GapOfOne(' ', i - |Ink(r.into)|); }
    GapOfOne(' ', i);
  }

  lemma GapOfSpace()
    ensures Ink(" ") == ""
  {
    assert " "[1..] == "";
  }

  /** What matters in the whole string matters in its parts. */
  lemma MattersInParts(a: string, b: string, i: nat)
    requires Matters(a + b, i)
    ensures i <= |a| ==> Matters(a, i)
    ensures i >= |a| ==> Matters(b, i - |a|)
  {
    assert i < |a| ==> (a + b)[i] == a[i];
    assert 0 < i <= |a| ==> (a + b)[i - 1] == a[i - 1];
    assert i - |a| > 0 ==> (a + b)[i - 1] == b[i - 1 - |a|];
    assert |a| <= i < |a| + |b| ==> (a + b)[i] == b[i - |a|];
  }

  /** A replacement keeps white space that matters and brings no new one. */
  lemma {:induction false} ReplaceKeepsGaps(r: Rule<char>, s: string, i: nat)
    requires Unspaces(r)
    ensures Ink(Replace(r, s)) == Ink(s)
    ensures Gap(Replace(r, s), i) ==> Gap(s, i)
    ensures Gap(s, i) && Matters(Ink(s), i) ==> Gap(Replace(r, s), i)
    decreases |s|
  {
    hide Ink, White, Gap, Padded, Matters;
    PaddedDeletes(r);
    ReplaceKeepsInk(r, s);
    if |s| < |r.pattern| {
    } else {
      var (head, into) := if r.pattern <= s then (r.pattern, r.into) else ([s[0]], [s[0]]);
      var rest := s[|head|..];
      assert s == head + rest && Replace(r, s) == into + Replace(r, rest);
      InkConcat(head, rest);
      GapConcat(head, rest, i);
      GapConcat(into, Replace(r, rest), i);
      if i >= |Ink(head)| { ReplaceKeepsGaps(r, rest, i - |Ink(head)|); }
      if Matters(Ink(s), i) { MattersInParts(Ink(head), Ink(rest), i); }
      if r.pattern <= s {
        RuleKeepsGaps(r, i);
        if Gap(head, i) && !Gap(into, i) { NotMattering(Ink(head), i); }
      }
    }
  }

  lemma NotMattering(ink: string, i: nat)
    requires ink != ""
    requires || (i == 0 && ink[0] in {':', '<', '>', ','})
             || (i == |ink| && ink[i - 1] in {':', '<'})
    ensures !Matters(ink, i)
  {
  }

  // ---------------------------------------------------------------------------
  // The whole normalization
  // ---------------------------------------------------------------------------

  ghost predicate AllUnspace(rules: seq<Rule<char>>) { forall i :: 0 <= i < |rules| ==> Unspaces(rules[i]) }

  lemma {:induction false} PassKeepsGaps(rules: seq<Rule<char>>, s: string, i: nat)
    requires AllUnspace(rules) && forall k :: 0 <= k < |rules| ==> rules[k].pattern != ""
    ensures Ink(Pass(rules, s)) == Ink(s)
    ensures Gap(Pass(rules, s), i) ==> Gap(s, i)
    ensures Gap(s, i) && Matters(Ink(s), i) ==> Gap(Pass(rules, s), i)
    decreases |rules|
  {
    hide Unspaces, Ink, Gap, Matters, Replace;
    if rules != [] {
      ReplaceKeepsGaps(rules[0], s, i);
      assert forall k :: 0 <= k < |rules[1..]| ==> rules[1..][k] == rules[k + 1];
      PassKeepsGaps(rules[1..], Replace(rules[0], s), i);
    }
  }

  lemma RulesUnspace()
    ensures AllUnspace(RULES)
  {
    hide Ink;
    RulesArePadded();
    InkOfPunctuation();
    forall i | 0 <= i < |RULES| ensures Unspaces(RULES[i]) {
      PaddedDeletes(RULES[i]);
      assert RULES[i].into in {"::", "<", ">>", ">", ", ", ","};
      RuleSides(RULES[i]);
    }
  }

  lemma RuleSides(r: Rule<char>)
    requires r in RULES
    ensures r.into in {"::", "<"} || r.pattern == " " + r.into
  {
    assert " >>" == " " + ">>" && " >" == " " + ">" && " , " == " " + ", " && " ," == " " + ",";
  }

  lemma InkOfPunctuation()
    ensures Ink("::") == "::" && Ink("<") == "<" && Ink(">>") == ">>" && Ink(">") == ">"
    ensures Ink(", ") == "," && Ink(",") == ","
  {
    assert "::"[1..] == ":" && ":"[1..] == "" && "<"[1..] == "" && ">>"[1..] == ">" && ">"[1..] == "";
    assert ", "[1..] == " " && " "[1..] == "" && ","[1..] == "";
  }

  lemma {:induction false} SettledKeepsGaps(t: string, i: nat)
    ensures Ink(Settled(t)) == Ink(t)
    ensures Gap(Settled(t), i) ==> Gap(t, i)
    ensures Gap(t, i) && Matters(Ink(t), i) ==> Gap(Settled(t), i)
    decreases |t|
  {
    hide Pass, Ink, Gap, Matters, AllUnspace;
    RulesUnspace();
    RulesDelete();
    PassShortens(RULES, t);
    PassKeepsGaps(RULES, t, i);
    if Pass(RULES, t) != t { SettledKeepsGaps(Pass(RULES, t), i); }
  }

  lemma {:induction false} TrimStartKeepsGaps(s: string, i: nat)
    requires i > 0
    ensures Gap(TrimStart(s), i) <==> Gap(s, i)
  {
    hide Ink, White, Gap;
    if s != "" && White(s[0]) {
      TrimStartKeepsGaps(s[1..], i);
      assert s == [s[0]] + s[1..];
      GapConcat([s[0]], s[1..], i);
      GapOfOne(s[0], i);
    }
  }

  lemma {:induction false} TrimEndKeepsGaps(s: string, i: nat)
    requires i < |Ink(s)|
    ensures Gap(TrimEnd(s), i) <==> Gap(s, i)
    decreases |s|
  {
    hide Ink, White, Gap;
    if s != "" && White(s[|s| - 1]) {
      var front := s[..|s| - 1];
      var last := s[|s| - 1];
      assert s == front + [last];
      InkConcat(front, [last]);
      GapOfOne(last, 0);
      TrimEndKeepsGaps(front, i);
      GapConcat(front, [last], i);
    }
  }

  /**
    Between two characters that are no white space, normalizing keeps white space that matters, such as
    around `as` or after a comma, and nowhere brings any.
   */
  lemma NormalKeepsGaps(s: string, i: nat)
    requires 0 < i < |Ink(s)|
    ensures Gap(Normal(s), i) ==> Gap(s, i)
    ensures Gap(s, i) && Matters(Ink(s), i) ==> Gap(Normal(s), i)
  {
    hide Ink, Gap, Matters, Settled;
    TrimStartKeepsInk(s);
    TrimEndKeepsInk(TrimStart(s));
    TrimStartKeepsGaps(s, i);
    TrimEndKeepsGaps(TrimStart(s), i);
    SettledKeepsGaps(Trim(s), i);
  }

  /** What is left in no normalized name. */
  lemma NormalExcludes(s: string)
    ensures !Contains(Normal(s), " ::") && !Contains(Normal(s), ":: ")
    ensures !Contains(Normal(s), " <") && !Contains(Normal(s), "< ") && !Contains(Normal(s), " >")
    ensures !Contains(Normal(s), " ,")
  {
    hide Normal, Contains;
    NormalForm(s);
    var r := Normal(s);
    assert !Contains(r, RULES[1].pattern) && !Contains(r, RULES[2].pattern) && !Contains(r, RULES[4].pattern);
    assert !Contains(r, RULES[5].pattern) && !Contains(r, RULES[7].pattern) && !Contains(r, RULES[9].pattern);
  }
}
