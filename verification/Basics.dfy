/** Values shared by every module of the model. */
module Basics {
  datatype Option<+T> = None | Some(value: T)

  /** A file: the components of its directory and its name. */
  datatype Path = Path(dir: seq<string>, name: string)

  /** Index of the last element with this key, or -1. */
  function FindLast<T>(s: seq<T>, key: T -> nat, k: nat): (i: int)
    ensures -1 <= i < |s|
    ensures i >= 0 ==> key(s[i]) == k
    ensures forall j :: i < j < |s| ==> key(s[j]) != k
  {
    if |s| == 0 then -1
    else if key(s[|s| - 1]) == k then |s| - 1
    else FindLast(s[..|s| - 1], key, k)
  }

  lemma ConcatAssociates<T>(a: seq<T>, b: seq<T>, c: seq<T>)
    ensures a + (b + c) == (a + b) + c
  {
  }

  ghost predicate Contains<T>(s: seq<T>, t: seq<T>) { exists i :: 0 <= i <= |s| && t <= s[i..] }

  lemma AtStart<T>(s: seq<T>, t: seq<T>)
    requires t <= s
    ensures Contains(s, t)
  {
    assert s[0..] == s;
  }

  predicate StartsWith<T(==)>(s: seq<T>, t: seq<T>) { t <= s }

  /** Replace a fixed non-empty pattern. */
  datatype Rule<T> = Rule(pattern: seq<T>, into: seq<T>)

  /** `str::replace`: left to right, without overlaps. */
  function Replace<T(==)>(rule: Rule<T>, s: seq<T>): seq<T>
    requires rule.pattern != []
    decreases |s|
  {
    if |s| < |rule.pattern| then s
    else if rule.pattern <= s then rule.into + Replace(rule, s[|rule.pattern|..])
    else [s[0]] + Replace(rule, s[1..])
  }
}
