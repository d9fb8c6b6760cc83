/**
  Text as Unicode characters: what well-formed bytes encode, and which characters are white space
  (section 3 of RFC 3629; cargo-instrument/src/transform.rs:474, cargo-instrument/src/ast.rs:769).
 */
module Unicode {
  import opened Basics
  import opened Bytes
  import SecondPass
  import TypeNames

  // ---------------------------------------------------------------------------
  // UTF-8
  // ---------------------------------------------------------------------------

  /** Code points that are characters: all but the surrogates. */
  predicate Scalar(c: nat) { c < 0xD800 || 0xE000 <= c < 0x11_0000 }

  /** The encoding of one character: six bits in each byte after the first. */
  function Encode(c: nat): seq<byte>
    requires Scalar(c)
  {
    if c < 0x80 then [c as byte]
    else if c < 0x800 then [(0xC0 + c / 64) as byte, Low(c)]
    else if c < 0x1_0000 then [(0xE0 + c / 4096) as byte, Low(c / 64), Low(c)]
    else [(0xF0 + c / 262144) as byte, Low(c / 4096), Low(c / 64), Low(c)]
  }

  function Low(c: nat): byte { (0x80 + c % 64) as byte }

  function EncodeAll(cs: seq<nat>): seq<byte>
    requires forall i :: 0 <= i < |cs| ==> Scalar(cs[i])
  {
    if cs == [] then [] else Encode(cs[0]) + EncodeAll(cs[1..])
  }

  lemma EncodedIsCharacter(c: nat)
    requires Scalar(c)
    ensures CharLen(Encode(c)) == |Encode(c)| > 0
  {
  }

  /** The character a well-formed start of text stands for. */
  function Decoded(s: seq<byte>): nat
    requires CharLen(s) > 0
  {
    match CharLen(s)
    case 1 => s[0] as nat
    case 2 => (s[0] as nat - 0xC0) * 64 + (s[1] as nat - 0x80)
    case 3 => (s[0] as nat - 0xE0) * 4096 + (s[1] as nat - 0x80) * 64 + (s[2] as nat - 0x80)
    case _ =>
      (s[0] as nat - 0xF0) * 262144 + (s[1] as nat - 0x80) * 4096 + (s[2] as nat - 0x80) * 64 + (s[3] as nat - 0x80)
  }

  lemma Digits(hi: nat, lo: nat)
    requires lo < 64
    ensures (hi * 64 + lo) / 64 == hi && (hi * 64 + lo) % 64 == lo
  {
  }

  lemma TwoBytes(s: seq<byte>)
    requires CharLen(s) == 2
    ensures Scalar(Decoded(s)) && s[..2] == Encode(Decoded(s))
  {
    Digits(s[0] as nat - 0xC0, s[1] as nat - 0x80);
  }

  lemma ThreeBytes(s: seq<byte>)
    requires CharLen(s) == 3
    ensures Scalar(Decoded(s)) && s[..3] == Encode(Decoded(s))
  {
    var a, b, c := s[0] as nat - 0xE0, s[1] as nat - 0x80, s[2] as nat - 0x80;
    var d := Decoded(s);
    assert d == (a * 64 + b) * 64 + c && 0x800 <= d < 0x1_0000 && Scalar(d);
    Digits(a * 64 + b, c);
    Digits(a, b);
    assert d / 4096 == a;
  }

  lemma FourBytes(s: seq<byte>)
    requires CharLen(s) == 4
    ensures Scalar(Decoded(s)) && s[..4] == Encode(Decoded(s))
  {
    var a, b, c, e := s[0] as nat - 0xF0, s[1] as nat - 0x80, s[2] as nat - 0x80, s[3] as nat - 0x80;
    var d := Decoded(s);
    assert d == ((a * 64 + b) * 64 + c) * 64 + e && 0x1_0000 <= d < 0x11_0000;
    Digits((a * 64 + b) * 64 + c, e);
    Digits(a * 64 + b, c);
    Digits(a, b);
    assert d / 4096 == a * 64 + b && d / 262144 == a;
  }

  lemma CharacterIsEncoded(s: seq<byte>)
    requires CharLen(s) > 0
    ensures Scalar(Decoded(s)) && s[..CharLen(s)] == Encode(Decoded(s))
  {
    hide Decoded, Encode;
    match CharLen(s)
    case 1 => OneByte(s);
    case 2 => TwoBytes(s);
    case 3 => ThreeBytes(s);
    case _ => FourBytes(s);
  }

  lemma OneByte(s: seq<byte>)
    requires CharLen(s) == 1
    ensures Scalar(Decoded(s)) && s[..1] == Encode(Decoded(s))
  {
  }

  /** Bytes are well-formed exactly when they encode a sequence of characters. */
  lemma {:induction false} Utf8Means(s: seq<byte>)
    ensures Utf8(s) <==> exists cs :: (forall i :: 0 <= i < |cs| ==> Scalar(cs[i])) && s == EncodeAll(cs)
  {
    hide Utf8, EncodeAll, Encode, CharLen;
    if Utf8(s) { var cs := Characters(s); }
    if cs :| (forall i :: 0 <= i < |cs| ==> Scalar(cs[i])) && s == EncodeAll(cs) { EncodedIsUtf8(cs); }
  }

  lemma {:induction false} Characters(s: seq<byte>) returns (cs: seq<nat>)
    requires Utf8(s)
    ensures (forall i :: 0 <= i < |cs| ==> Scalar(cs[i])) && s == EncodeAll(cs)
    decreases |s|
  {
    hide Encode, CharLen, Decoded, Scalar;
    if s == [] {
      cs := [];
    } else {
      var n := CharLen(s);
      Utf8Unstep(s);
      CharacterIsEncoded(s);
      var rest := Characters(s[n..]);
      cs := [Decoded(s)] + rest;
      assert cs[1..] == rest && s == s[..n] + s[n..];
    }
  }

  lemma {:induction false} EncodedIsUtf8(cs: seq<nat>)
    requires forall i :: 0 <= i < |cs| ==> Scalar(cs[i])
    ensures Utf8(EncodeAll(cs))
  {
    hide Encode, CharLen, Utf8;
    if cs == [] {
      Utf8Step([]);
    } else {
      EncodedIsUtf8(cs[1..]);
      var one := Encode(cs[0]);
      EncodedIsCharacter(cs[0]);
      assert one[|one|..] == [];
      Utf8Step([]);
      Utf8Step(one);
      Utf8Concat(one, EncodeAll(cs[1..]));
    }
  }

  /** The boundaries of well-formed text are exactly the places that leave well-formed text on both sides. */
  lemma BoundariesSplit(s: seq<byte>, p: nat)
    requires Utf8(s) && p <= |s|
    ensures CharBoundary(s, p) <==> Utf8(s[..p]) && Utf8(s[p..])
  {
    hide Utf8;
    if CharBoundary(s, p) { Utf8Split(s, p); }
    if Utf8(s[p..]) && p < |s| { Utf8Unstep(s[p..]); }
  }

  // ---------------------------------------------------------------------------
  // White space
  // ---------------------------------------------------------------------------

  /** The characters with the property White_Space. */
  predicate WhiteSpace(c: nat) {
    || c in {9, 10, 11, 12, 13, 32, 133, 160, 5760}
    || c in {8192, 8193, 8194, 8195, 8196, 8197, 8198, 8199, 8200, 8201, 8202, 8232, 8233, 8239, 8287, 12288}
  }

  lemma WhiteMeans(c: char)
    ensures TypeNames.White(c) <==> WhiteSpace(c as nat)
  {
  }

  /** White space in bytes is the encoding of white space. */
  lemma SpaceMeans(s: seq<byte>)
    ensures SecondPass.Space(s) <==> exists c :: Scalar(c) && WhiteSpace(c) && s == Encode(c)
  {
    if SecondPass.Space(s) {
      assert CharLen(s) == |s| && s[..|s|] == s;
      CharacterIsEncoded(s);
      assert WhiteSpace(Decoded(s));
    }
    if c :| Scalar(c) && WhiteSpace(c) && s == Encode(c) {
      EncodedSpace(c);
    }
  }

  lemma EncodedSpace(c: nat)
    requires Scalar(c) && WhiteSpace(c)
    ensures SecondPass.Space(Encode(c))
  {
  }
}
