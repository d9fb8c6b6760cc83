/**
  Applying a plan: splicing byte edits into an immutable source in one pass
  (cargo-instrument/src/transform.rs:127-137, 420-456).
 */
module Splicer {
  import opened Basics
  import opened Bytes

  /** Replace source[start..end] by `text`; offsets refer to the original source. */
  datatype Edit = Edit(start: nat, end: nat, text: seq<byte>)

  datatype Error =
    | OutOfBounds(start: nat, end: nat, sourceLen: nat)
    | InvalidUtf8Boundary(offset: nat, start: nat, end: nat)
    | SlicePanic(start: nat, end: nat)   // &source[last_offset..edit.start] with the bounds crossed

  datatype Result<T> = Ok(value: T) | Err(error: Error)

  /** The checks `apply` makes on one edit, with `at` bytes of the source already copied. */
  function Check(source: seq<byte>, at: nat, e: Edit): Result<()> {
    if e.start > |source| || e.end > |source| || e.start > e.end then Err(OutOfBounds(e.start, e.end, |source|))
    else if !CharBoundary(source, e.start) then Err(InvalidUtf8Boundary(e.start, e.start, e.end))
    else if !CharBoundary(source, e.end) then Err(InvalidUtf8Boundary(e.end, e.start, e.end))
    else if at > e.start then Err(SlicePanic(at, e.start))
    else Ok(())
  }

  /** What `apply` still has to output once `at` bytes of the source are copied. */
  function Remaining(source: seq<byte>, edits: seq<Edit>, at: nat): Result<seq<byte>>
    requires at <= |source|
  {
    if edits == [] then Ok(source[at..])
    else
      var e := edits[0];
      var checked := Check(source, at, e);
      if checked.Err? then Err(checked.error)
      else
        var rest := Remaining(source, edits[1..], e.end);
        if rest.Err? then rest else Ok(source[at..e.start] + e.text + rest.value)
  }

  /** The result once `done` has been copied and `rest` is what remains. */
  function After(done: seq<byte>, rest: Result<seq<byte>>): Result<seq<byte>> {
    if rest.Err? then rest else Ok(done + rest.value)
  }

  lemma StartsWithNothing(rest: Result<seq<byte>>)
    ensures After([], rest) == rest
  {
    if rest.Ok? { assert [] + rest.value == rest.value; }
  }

  /** Applying edit i fails its checks or moves on to what remains after it. */
  lemma NextEdit(source: seq<byte>, edits: seq<Edit>, i: nat, at: nat, done: seq<byte>)
    requires i < |edits| && at <= |source|
    ensures var e := edits[i];
            var checked := Check(source, at, e);
            && (checked.Err? ==> Remaining(source, edits[i..], at) == Err(checked.error))
            && (checked.Ok? ==>
                After(done, Remaining(source, edits[i..], at))
                == After(done + (source[at..e.start] + e.text), Remaining(source, edits[i + 1..], e.end)))
  {
    hide CharBoundary, Check;
    var e := edits[i];
    var rest := edits[i..];
    assert rest != [] && rest[0] == e && rest[1..] == edits[i + 1..];
    if Check(source, at, e).Ok? {
      CheckedInBounds(source, at, e);
      var later := Remaining(source, edits[i + 1..], e.end);
      if later.Ok? { ConcatAssociates(done, source[at..e.start] + e.text, later.value); }
    }
  }

  lemma CheckedInBounds(source: seq<byte>, at: nat, e: Edit)
    requires Check(source, at, e).Ok?
    ensures at <= e.start <= e.end <= |source|
  {
  }

  lemma LastEdit(source: seq<byte>, edits: seq<Edit>, at: nat)
    requires at <= |source|
    ensures Remaining(source, edits[|edits|..], at) == Ok(source[at..])
  {
    assert edits[|edits|..] == [];
  }

  /** `TransformationPlan::apply`. */
  method Apply(source: seq<byte>, edits: seq<Edit>) returns (r: Result<seq<byte>>)
    ensures r == Remaining(source, edits, 0)
  {
    hide Remaining, CharBoundary;
    var result := [];
    var lastOffset: nat := 0;
    var i := 0;
    assert edits[0..] == edits;
    StartsWithNothing(Remaining(source, edits, 0));
    while i < |edits|
      invariant 0 <= i <= |edits| && lastOffset <= |source|
      invariant Remaining(source, edits, 0) == After(result, Remaining(source, edits[i..], lastOffset))
    {
      var edit := edits[i];
      NextEdit(source, edits, i, lastOffset, result);
      if edit.start > |source| || edit.end > |source| || edit.start > edit.end {
        return Err(OutOfBounds(edit.start, edit.end, |source|));
      }
      if !CharBoundary(source, edit.start) {
        return Err(InvalidUtf8Boundary(edit.start, edit.start, edit.end));
      }
      if !CharBoundary(source, edit.end) {
        return Err(InvalidUtf8Boundary(edit.end, edit.start, edit.end));
      }
      if lastOffset > edit.start {
        return Err(SlicePanic(lastOffset, edit.start));
      }
      result := result + (source[lastOffset..edit.start] + edit.text);
      lastOffset := edit.end;
      i := i + 1;
    }
    LastEdit(source, edits, lastOffset);
    r := Ok(result + source[lastOffset..]);
  }

  // ---------------------------------------------------------------------------
  // Sorted pure insertions, the shape of every plan
  // ---------------------------------------------------------------------------

  ghost predicate InsertionsFrom(source: seq<byte>, edits: seq<Edit>, at: nat) {
    && (forall i :: 0 <= i < |edits| ==>
         at <= edits[i].start == edits[i].end <= |source| && CharBoundary(source, edits[i].start))
    && (forall i, j :: 0 <= i < j < |edits| ==> edits[i].start <= edits[j].start)
  }

  ghost predicate Insertions(source: seq<byte>, edits: seq<Edit>) { InsertionsFrom(source, edits, 0) }

  /** Total length of the replacements. */
  function TotalText(edits: seq<Edit>): nat {
    if edits == [] then 0 else |edits[0].text| + TotalText(edits[1..])
  }

  /** Total length of the replacements starting at or before source offset p. */
  function Shift(edits: seq<Edit>, p: nat): nat {
    if edits == [] then 0 else (if edits[0].start <= p then |edits[0].text| else 0) + Shift(edits[1..], p)
  }

  lemma {:induction false} ShiftIsMonotone(edits: seq<Edit>, p: nat, q: nat)
    requires p <= q
    ensures Shift(edits, p) <= Shift(edits, q) <= TotalText(edits)
  {
    if edits != [] { ShiftIsMonotone(edits[1..], p, q); }
  }

  lemma {:induction false} NothingBefore(source: seq<byte>, edits: seq<Edit>, at: nat, p: nat)
    requires InsertionsFrom(source, edits, at) && p < at
    ensures Shift(edits, p) == 0
    decreases |edits|
  {
    if edits != [] { NothingBefore(source, edits[1..], at, p); }
  }

  /** The text a plan of insertions produces from offset `at` on. */
  function Spliced(source: seq<byte>, edits: seq<Edit>, at: nat): seq<byte>
    requires at <= |source|
  {
    if Remaining(source, edits, at).Ok? then Remaining(source, edits, at).value else []
  }

  /** Applying sorted insertions at boundaries cannot fail. */
  lemma {:induction false} InsertionsApply(source: seq<byte>, edits: seq<Edit>, at: nat)
    requires at <= |source| && InsertionsFrom(source, edits, at)
    ensures Remaining(source, edits, at).Ok?
    ensures |Spliced(source, edits, at)| == |source| - at + TotalText(edits)
    ensures edits != [] ==>
              var e := edits[0];
              Spliced(source, edits, at) == (source[at..e.start] + e.text) + Spliced(source, edits[1..], e.start)
    decreases |edits|
  {
    if edits != [] {
      InsertionsApply(source, edits[1..], edits[0].start);
    }
  }

  predicate At(out: seq<byte>, q: int, b: byte) { 0 <= q < |out| && out[q] == b }

  lemma AtPast(out: seq<byte>, head: seq<byte>, rest: seq<byte>, q: int, b: byte)
    requires out == head + rest && At(rest, q, b)
    ensures At(out, |head| + q, b)
  {
  }

  lemma AtWithin(out: seq<byte>, source: seq<byte>, at: nat, end: nat, text: seq<byte>, rest: seq<byte>, p: nat)
    requires at <= p < end <= |source| && out == (source[at..end] + text) + rest
    ensures At(out, p - at, source[p])
  {
    assert source[at..end][p - at] == source[p];
  }

  lemma {:induction false} BytesBeforeFirst(source: seq<byte>, edits: seq<Edit>, at: nat, p: nat)
    requires InsertionsFrom(source, edits, at) && edits != [] && at <= p < edits[0].start
    ensures At(Spliced(source, edits, at), p - at, source[p]) && Shift(edits, p) == 0
  {
    hide Remaining, Spliced, CharBoundary, At, TotalText;
    var e := edits[0];
    InsertionsApply(source, edits, at);
    NothingBefore(source, edits[1..], e.start, p);
    AtWithin(Spliced(source, edits, at), source, at, e.start, e.text, Spliced(source, edits[1..], e.start), p);
  }

  lemma BytesAfterFirst(source: seq<byte>, edits: seq<Edit>, at: nat, q: int, b: byte)
    requires InsertionsFrom(source, edits, at) && edits != [] && at <= |source|
    requires edits[0].start <= |source| && At(Spliced(source, edits[1..], edits[0].start), q, b)
    ensures At(Spliced(source, edits, at), edits[0].start - at + |edits[0].text| + q, b)
  {
    hide Remaining, Spliced, CharBoundary, At, TotalText;
    var e := edits[0];
    InsertionsApply(source, edits, at);
    var head := source[at..e.start] + e.text;
    assert |head| == e.start - at + |e.text|;
    AtPast(Spliced(source, edits, at), head, Spliced(source, edits[1..], e.start), q, b);
  }

  /**
    The position map: source byte p lands at p plus the length of everything inserted at or
    before p.
   */
  lemma {:induction false} BytesLandShifted(source: seq<byte>, edits: seq<Edit>, at: nat, p: nat)
    requires InsertionsFrom(source, edits, at) && at <= p < |source|
    ensures At(Spliced(source, edits, at), p - at + Shift(edits, p), source[p])
    decreases |edits|
  {
    hide Remaining, Spliced, CharBoundary, At;
    if edits == [] {
      BytesOfTail(source, at, p);
    } else if p < edits[0].start {
      BytesBeforeFirst(source, edits, at, p);
    } else {
      BytesLandShifted(source, edits[1..], edits[0].start, p);
      BytesAfterFirst(source, edits, at, p - edits[0].start + Shift(edits[1..], p), source[p]);
    }
  }

  lemma BytesOfTail(source: seq<byte>, at: nat, p: nat)
    requires at <= p < |source|
    ensures At(Spliced(source, [], at), p - at, source[p])
  {
  }

  /** From source offset q on, the output is what the edits at q and later make of the rest of the source. */
  lemma {:induction false} OutputFrom(source: seq<byte>, edits: seq<Edit>, at: nat, k: nat, q: nat)
    requires InsertionsFrom(source, edits, at) && k <= |edits| && at <= q <= |source|
    requires forall i :: 0 <= i < k ==> edits[i].start <= q
    requires forall i :: k <= i < |edits| ==> edits[i].start >= q
    ensures InsertionsFrom(source, edits[k..], q)
    ensures var n := q - at + TotalText(edits[..k]);
            n <= |Spliced(source, edits, at)| && Spliced(source, edits, at)[n..] == Spliced(source, edits[k..], q)
    decreases k
  {
    hide Remaining, Spliced, CharBoundary;
    if k == 0 {
      assert edits[..0] == [] && edits[0..] == edits;
      OutputFromCut(source, edits, at, q);
    } else {
      var e := edits[0];
      InsertionsApply(source, edits, at);
      OutputFrom(source, edits[1..], e.start, k - 1, q);
      assert edits[1..][k - 1..] == edits[k..] && edits[1..][..k - 1] == edits[..k][1..];
      var head := source[at..e.start] + e.text;
      var rest := Spliced(source, edits[1..], e.start);
      assert |head| == e.start - at + |e.text|;
      DropPast(Spliced(source, edits, at), head, rest, q - e.start + TotalText(edits[..k][1..]));
    }
  }

  lemma DropPast(out: seq<byte>, head: seq<byte>, rest: seq<byte>, n: nat)
    requires out == head + rest && n <= |rest|
    ensures out[|head| + n..] == rest[n..]
  {
  }

  lemma OutputFromCut(source: seq<byte>, edits: seq<Edit>, at: nat, q: nat)
    requires InsertionsFrom(source, edits, at) && at <= q <= |source|
    requires forall i :: 0 <= i < |edits| ==> edits[i].start >= q
    ensures InsertionsFrom(source, edits, q)
    ensures q - at <= |Spliced(source, edits, at)| && Spliced(source, edits, at)[q - at..] == Spliced(source, edits, q)
  {
    hide Remaining, Spliced, TotalText, CharBoundary;
    if edits == [] {
      TailCut(source, at, q);
    } else {
      var e := edits[0];
      InsertionsApply(source, edits, at);
      InsertionsApply(source, edits, q);
    }
  }

  lemma TailCut(source: seq<byte>, at: nat, q: nat)
    requires at <= q <= |source|
    ensures q - at <= |Spliced(source, [], at)| && Spliced(source, [], at)[q - at..] == Spliced(source, [], q)
  {
    assert Spliced(source, [], at) == source[at..] && Spliced(source, [], q) == source[q..];
  }

  /** The shift at p is the text of the edits up to p. */
  lemma {:induction false} ShiftOfPrefix(edits: seq<Edit>, k: nat, p: nat)
    requires k <= |edits|
    requires forall i :: 0 <= i < k ==> edits[i].start <= p
    requires forall i :: k <= i < |edits| ==> edits[i].start > p
    ensures Shift(edits, p) == TotalText(edits[..k])
    decreases |edits|
  {
    if edits == [] {
    } else if k == 0 {
      assert edits[..0] == [] && edits[1..][..0] == [];
      ShiftOfPrefix(edits[1..], 0, p);
    } else {
      ShiftOfPrefix(edits[1..], k - 1, p);
      assert edits[1..][..k - 1] == edits[..k][1..];
    }
  }

  /** Delete insertions again, knowing only their source offsets and lengths. */
  function Erase(out: seq<byte>, edits: seq<Edit>, at: nat): seq<byte> {
    if edits == [] then out
    else
      var e := edits[0];
      if at > e.start || e.start - at + |e.text| > |out| then out
      else out[..e.start - at] + Erase(out[e.start - at + |e.text|..], edits[1..], e.start)
  }

  lemma EraseFirst(out: seq<byte>, head: seq<byte>, e: Edit, edits: seq<Edit>, rest: seq<byte>, at: nat)
    requires edits != [] && edits[0] == e && at <= e.start && |head| == e.start - at
    requires out == (head + e.text) + rest
    ensures Erase(out, edits, at) == head + Erase(rest, edits[1..], e.start)
  {
    var n := |head| + |e.text|;
    assert out[..|head|] == head && out[n..] == rest;
  }

  /** Deleting the insertions restores the source exactly. */
  lemma {:induction false} EraseUndoesSplice(source: seq<byte>, edits: seq<Edit>, at: nat)
    requires at <= |source| && InsertionsFrom(source, edits, at)
    ensures source[at..] == Erase(Spliced(source, edits, at), edits, at)
    decreases |edits|
  {
    hide Remaining, Spliced, Erase, CharBoundary, TotalText;
    if edits == [] {
      EraseNothing(source, at);
    } else {
      var e := edits[0];
      InsertionsApply(source, edits, at);
      EraseUndoesSplice(source, edits[1..], e.start);
      EraseFirst(Spliced(source, edits, at), source[at..e.start], e, edits, Spliced(source, edits[1..], e.start), at);
      assert source[at..e.start] + source[e.start..] == source[at..];
    }
  }

  lemma EraseNothing(source: seq<byte>, at: nat)
    requires at <= |source|
    ensures Erase(Spliced(source, [], at), [], at) == source[at..]
  {
  }

  ghost predicate Utf8Texts(edits: seq<Edit>) { forall i :: 0 <= i < |edits| ==> Utf8(edits[i].text) }

  /** Splicing well-formed text at boundaries of well-formed text gives well-formed text. */
  lemma {:induction false} SpliceKeepsUtf8(source: seq<byte>, edits: seq<Edit>, at: nat)
    requires Utf8(source) && at <= |source| && CharBoundary(source, at)
    requires InsertionsFrom(source, edits, at) && Utf8Texts(edits)
    ensures Utf8(Spliced(source, edits, at))
    decreases |edits|
  {
    InsertionsApply(source, edits, at);
    if edits == [] {
      Utf8Split(source, at);
    } else {
      var e := edits[0];
      SpliceKeepsUtf8(source, edits[1..], e.start);
      Utf8Slice(source, at, e.start);
      Utf8Concat(source[at..e.start], e.text);
      Utf8Concat(source[at..e.start] + e.text, Spliced(source, edits[1..], e.start));
    }
  }

  lemma Utf8Slice(s: seq<byte>, a: nat, b: nat)
    requires Utf8(s) && a <= b <= |s| && CharBoundary(s, a) && CharBoundary(s, b)
    ensures Utf8(s[a..b])
  {
    Utf8Split(s, b);
    assert a < b ==> s[..b][a] == s[a];
    Utf8Split(s[..b], a);
    assert s[..b][a..] == s[a..b];
  }
}
