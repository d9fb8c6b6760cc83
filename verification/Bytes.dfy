/**
  Source text as bytes: well-formed UTF-8 (section 3 and 4 of RFC 3629) and the character
  boundaries that Rust's `str::is_char_boundary` recognizes.

  Well-formed texts concatenate, and well-formed text splits at boundaries into well-formed texts;
  ASCII text is well-formed, and an ASCII byte is a character of its own, so that there is a
  boundary before and after it. These are the facts that splicing relies on.
 */
module Bytes {
  newtype byte = b: int | 0 <= b < 256

  predicate Continuation(b: byte) { 0x80 <= b < 0xC0 }

  /** `str::is_char_boundary`. */
  predicate CharBoundary(s: seq<byte>, i: nat) {
    i == 0 || i == |s| || (i < |s| && !Continuation(s[i]))
  }

  /** Length of the well-formed character that s starts with, 0 if there is none. */
  function CharLen(s: seq<byte>): (n: nat)
    ensures n <= |s| && n <= 4
    ensures n > 0 ==> !Continuation(s[0]) && forall i :: 0 < i < n ==> Continuation(s[i])
    ensures n > 1 ==> s[0] >= 0x80
  {
    if |s| >= 1 && s[0] < 0x80 then 1
    else if |s| >= 2 && 0xC2 <= s[0] <= 0xDF && Continuation(s[1]) then 2
    else if |s| >= 3 && 0xE0 <= s[0] <= 0xEF && Continuation(s[1]) && Continuation(s[2])
            && (s[0] == 0xE0 ==> s[1] >= 0xA0) && (s[0] == 0xED ==> s[1] < 0xA0) then 3
    else if |s| >= 4 && 0xF0 <= s[0] <= 0xF4 && Continuation(s[1]) && Continuation(s[2]) && Continuation(s[3])
            && (s[0] == 0xF0 ==> s[1] >= 0x90) && (s[0] == 0xF4 ==> s[1] < 0x90) then 4
    else 0
  }

  predicate Utf8(s: seq<byte>)
    decreases |s|
  {
    s == [] || (CharLen(s) > 0 && Utf8(s[CharLen(s)..]))
  }

  /** Characters are self-delimiting. */
  lemma CharLenIsLocal(a: seq<byte>, b: seq<byte>)
    requires CharLen(a) > 0
    ensures CharLen(a + b) == CharLen(a)
  {
  }

  lemma Utf8Step(s: seq<byte>)
    requires s != [] ==> CharLen(s) > 0 && Utf8(s[CharLen(s)..])
    ensures Utf8(s)
  {
  }

  lemma Utf8Unstep(s: seq<byte>)
    requires Utf8(s) && s != []
    ensures CharLen(s) > 0 && Utf8(s[CharLen(s)..])
  {
  }

  lemma {:induction false} Utf8Concat(a: seq<byte>, b: seq<byte>)
    requires Utf8(a) && Utf8(b)
    ensures Utf8(a + b)
    decreases |a|
  {
    hide CharLen, Utf8, Continuation;
    if a == [] {
      assert a + b == b;
    } else {
      var n := CharLen(a);
      Utf8Unstep(a);
      Utf8Concat(a[n..], b);
      assert (a + b)[n..] == a[n..] + b;
      CharLenIsLocal(a, b);
      Utf8Step(a + b);
    }
  }

  /** Cutting at a character boundary leaves two well-formed strings. */
  lemma {:induction false} Utf8Split(s: seq<byte>, p: nat)
    requires Utf8(s) && p <= |s| && CharBoundary(s, p)
    ensures Utf8(s[..p]) && Utf8(s[p..])
    decreases |s|
  {
    if p == 0 {
      assert s[p..] == s;
    } else {
      var n := CharLen(s);
      assert n <= p;
      Utf8Split(s[n..], p - n);
      assert s[n..][p - n..] == s[p..];
      assert s[n..][..p - n] == s[n..p];
      CharLenIsWithin(s, p);
      assert s[..p][n..] == s[n..p];
    }
  }

  lemma CharLenIsWithin(s: seq<byte>, p: nat)
    requires CharLen(s) > 0 && CharLen(s) <= p <= |s|
    ensures CharLen(s[..p]) == CharLen(s)
  {
  }

  /** The offset after an ASCII byte of well-formed text is a boundary. */
  lemma {:induction false} AsciiEndsCharacter(s: seq<byte>, i: nat)
    requires Utf8(s) && i < |s| && s[i] < 0x80
    ensures CharBoundary(s, i) && CharBoundary(s, i + 1)
    decreases |s|
  {
    var n := CharLen(s);
    if i >= n {
      AsciiEndsCharacter(s[n..], i - n);
      assert s[n..][i - n] == s[i];
      assert i + 1 < |s| ==> s[n..][i - n + 1] == s[i + 1];
    } else {
      assert i == 0 && n == 1;
      if 1 < |s| { assert CharLen(s[1..]) > 0 && s[1..][0] == s[1]; }
    }
  }

  lemma {:induction false} AsciiIsUtf8(s: seq<byte>)
    requires forall i :: 0 <= i < |s| ==> s[i] < 0x80
    ensures Utf8(s)
  {
    if s != [] { AsciiIsUtf8(s[1..]); }
  }
}
