/**
  What the greedy scan over the sorted candidates does: it partitions them, the accepted
  bodies are disjoint, and the result depends only on the multiset of candidates
  (cargo-instrument/src/transform.rs:210-347).
 */
module GreedyScan {
  import opened Basics
  import opened Bytes
  import opened Sorting
  import opened Splicer
  import opened Planner

  ghost function Planned(source: seq<byte>, em: Emitter, cs: seq<Candidate>): Scan {
    Scanned(source, em, Sort(CandidateLe, cs))
  }

  /** The insertions of one accepted candidate. */
  ghost function EditsOf(em: Emitter, c: Candidate): (r: seq<Edit>)
    ensures r != [] && r[0].start == c.body.start + 1
  {
    [Edit(c.body.start + 1, c.body.start + 1, em.prefix(c))]
    + if em.suffix(c) == [] || c.body.end == 0 then [] else [Edit(c.body.end - 1, c.body.end - 1, em.suffix(c))]
  }

  ghost function AllEditsOf(em: Emitter, cs: seq<Candidate>): seq<Edit> {
    if cs == [] then [] else AllEditsOf(em, cs[..|cs| - 1]) + EditsOf(em, cs[|cs| - 1])
  }

  lemma AllEditsSnoc(em: Emitter, cs: seq<Candidate>, c: Candidate)
    ensures AllEditsOf(em, cs + [c]) == AllEditsOf(em, cs) + EditsOf(em, c)
  {
    assert (cs + [c])[..|cs|] == cs;
  }

  /** What acceptance guarantees about one candidate. */
  ghost predicate Healthy(source: seq<byte>, em: Emitter, c: Candidate) {
    var r := c.body;
    && (c.isAsync ==> em.handlesAsync)
    && r.start < r.end <= |source| && CharBoundary(source, r.start) && CharBoundary(source, r.end)
    && source[r.start] == 0x7B && !StartsWithAnchor(source, r.start) && CharBoundary(source, r.start + 1)
    && (em.suffix(c) != [] ==>
          r.start + 2 < r.end && CharBoundary(source, r.end - 1) && source[r.end - 1] == 0x7D)
  }

  /** A candidate is accepted exactly when it is healthy and starts no earlier than the last accepted body ends. */
  lemma AcceptedIffHealthy(source: seq<byte>, em: Emitter, last: Option<Range>, c: Candidate)
    ensures Decide(source, em, last, c).Accept? <==>
              Healthy(source, em, c) && (last.Some? ==> last.value.end <= c.body.start)
    ensures Decide(source, em, last, c).Accept? ==> Decide(source, em, last, c).edits == EditsOf(em, c)
  {
    hide StartsWithAnchor;
  }

  /** What a skip record claims about its candidate. */
  ghost predicate TrueOf(source: seq<byte>, em: Emitter, c: Candidate, why: SkipReason) {
    match why
    case AsyncDeferred => c.isAsync && !em.handlesAsync
    case RangeOutOfBounds(r, n) => r == c.body && n == |source| && !(r.start < r.end <= n)
    case BadBoundary(k) =>
      || (k in {c.body.start, c.body.end, c.body.start + 1} && !CharBoundary(source, k))
      || (em.suffix(c) != [] && k == c.body.end - 1 && (k <= c.body.start + 1 || !CharBoundary(source, k)))
    case MissingBrace(k, found) =>
      && k < |source| && source[k] == found
      && ((k == c.body.start && found != 0x7B)
          || (em.suffix(c) != [] && k == c.body.end - 1 && found != 0x7D))
    case AlreadyInstrumented => StartsWithAnchor(source, c.body.start)
    case Overlapping(previous, current) => current == c.body && current.start < previous.end
  }

  /** Every record in a plan tells the truth about the candidate it stands for. */
  lemma {:induction false} RecordsAreTrue(source: seq<byte>, em: Emitter, cs: seq<Candidate>)
    ensures var s := Scanned(source, em, cs);
            |s.skipped| == |s.dropped|
            && forall i :: 0 <= i < |s.skipped| ==> TrueOf(source, em, s.dropped[i], s.skipped[i].reason)
    decreases |cs|
  {
    hide Decide, TrueOf;
    if cs != [] {
      var before := Scanned(source, em, cs[..|cs| - 1]);
      RecordsAreTrue(source, em, cs[..|cs| - 1]);
      DecisionIsTrue(source, em, before.last, cs[|cs| - 1]);
    }
  }

  lemma DecisionIsTrue(source: seq<byte>, em: Emitter, last: Option<Range>, c: Candidate)
    ensures Decide(source, em, last, c).Skip? ==> TrueOf(source, em, c, Decide(source, em, last, c).reason)
  {
    hide StartsWithAnchor, CharBoundary;
  }

  /** The last accepted body is the last of the accepted ones. */
  ghost predicate LastIs(accepted: seq<Candidate>, last: Option<Range>) {
    last == if accepted == [] then None else Some(accepted[|accepted| - 1].body)
  }

  ghost predicate DisjointInOrder(accepted: seq<Candidate>) {
    forall i, j :: 0 <= i < j < |accepted| ==> accepted[i].body.end <= accepted[j].body.start
  }

  ghost predicate AllHealthy(source: seq<byte>, em: Emitter, cs: seq<Candidate>) {
    forall i :: 0 <= i < |cs| ==> Healthy(source, em, cs[i])
  }

  lemma DisjointGrows(source: seq<byte>, em: Emitter, accepted: seq<Candidate>, last: Option<Range>, c: Candidate)
    requires DisjointInOrder(accepted) && AllHealthy(source, em, accepted) && LastIs(accepted, last)
    requires Healthy(source, em, c) && (last.Some? ==> last.value.end <= c.body.start)
    ensures DisjointInOrder(accepted + [c]) && AllHealthy(source, em, accepted + [c])
    ensures LastIs(accepted + [c], Some(c.body))
  {
    forall i | 0 <= i < |accepted| ensures accepted[i].body.end <= c.body.start {
      assert Healthy(source, em, accepted[|accepted| - 1]);
    }
  }

  /** Accepted bodies are healthy, disjoint and in order, and the edits are exactly theirs. */
  lemma AcceptedAreDisjoint(source: seq<byte>, em: Emitter, cs: seq<Candidate>)
    ensures var s := Scanned(source, em, cs);
            && LastIs(s.accepted, s.last)
            && DisjointInOrder(s.accepted)
            && AllHealthy(source, em, s.accepted)
            && s.edits == AllEditsOf(em, s.accepted)
    decreases |cs|
  {
    hide Decide, Healthy, AllEditsOf, EditsOf, DisjointInOrder, AllHealthy;
    if cs == [] {
      NothingAccepted(source, em);
    } else {
      var c := cs[|cs| - 1];
      var before := Scanned(source, em, cs[..|cs| - 1]);
      AcceptedAreDisjoint(source, em, cs[..|cs| - 1]);
      AcceptedIffHealthy(source, em, before.last, c);
      if Decide(source, em, before.last, c).Accept? {
        DisjointGrows(source, em, before.accepted, before.last, c);
        AllEditsSnoc(em, before.accepted, c);
      }
    }
  }

  lemma NothingAccepted(source: seq<byte>, em: Emitter)
    ensures var s := Scanned(source, em, []);
            LastIs(s.accepted, s.last) && DisjointInOrder(s.accepted)
            && AllHealthy(source, em, s.accepted) && s.edits == AllEditsOf(em, s.accepted)
  {
  }

  ghost predicate RecordsMatch(skipped: seq<Skipped>, dropped: seq<Candidate>) {
    && |skipped| == |dropped|
    && forall i :: 0 <= i < |skipped| ==> skipped[i].name == dropped[i].name && skipped[i].range == dropped[i].body
  }

  lemma {:induction false} ScanPartitions(source: seq<byte>, em: Emitter, cs: seq<Candidate>)
    ensures var s := Scanned(source, em, cs); multiset(s.accepted) + multiset(s.dropped) == multiset(cs)
    decreases |cs|
  {
    hide Decide;
    if cs != [] {
      var n := |cs| - 1;
      ScanPartitions(source, em, cs[..n]);
      var before := Scanned(source, em, cs[..n]);
      assert cs == cs[..n] + [cs[n]];
    }
  }

  lemma {:induction false} RecordsAreKept(source: seq<byte>, em: Emitter, cs: seq<Candidate>)
    ensures var s := Scanned(source, em, cs); RecordsMatch(s.skipped, s.dropped)
    decreases |cs|
  {
    hide Decide;
    if cs != [] { RecordsAreKept(source, em, cs[..|cs| - 1]); }
  }

  /** Every candidate is accepted or recorded as skipped, exactly once. */
  lemma {:induction false} EveryCandidateDecidedOnce(source: seq<byte>, em: Emitter, cs: seq<Candidate>)
    ensures var s := Planned(source, em, cs);
            && multiset(s.accepted) + multiset(s.dropped) == multiset(cs)
            && RecordsMatch(s.skipped, s.dropped)
            && DisjointInOrder(s.accepted)
            && s.edits == AllEditsOf(em, s.accepted)
  {
    hide Scanned, RecordsMatch, DisjointInOrder, AllEditsOf;
    ScanPartitions(source, em, Sort(CandidateLe, cs));
    RecordsAreKept(source, em, Sort(CandidateLe, cs));
    AcceptedAreDisjoint(source, em, Sort(CandidateLe, cs));
    CandidateOrder();
    SortSorts(CandidateLe, cs);
  }

  lemma AcceptedBelong(source: seq<byte>, em: Emitter, cs: seq<Candidate>)
    ensures forall c :: c in Planned(source, em, cs).accepted ==> c in cs
  {
    hide Scanned, RecordsMatch, DisjointInOrder, AllEditsOf;
    EveryCandidateDecidedOnce(source, em, cs);
    var s := Planned(source, em, cs);
    forall c | c in s.accepted ensures c in cs { assert c in multiset(s.accepted) && c in multiset(cs); }
  }

  /** Candidates i < j of the list where j is turned away because it starts inside the accepted i. */
  ghost predicate Clash(cs: seq<Candidate>, i: nat, j: nat, previous: Range, current: Range) {
    i < j < |cs| && cs[i].body == previous && cs[j].body == current && current.start < previous.end
    && previous.start < previous.end && current.start < current.end
  }

  lemma {:induction false} LastIsInput(source: seq<byte>, em: Emitter, cs: seq<Candidate>)
    requires Scanned(source, em, cs).last.Some?
    ensures var last := Scanned(source, em, cs).last.value;
            last.start < last.end && exists i: nat :: i < |cs| && cs[i].body == last
    decreases |cs|
  {
    hide StartsWithAnchor;
    var n := |cs| - 1;
    var before := Scanned(source, em, cs[..n]);
    if Decide(source, em, before.last, cs[n]).Accept? {
      assert cs[n].body == Scanned(source, em, cs).last.value;
    } else {
      LastIsInput(source, em, cs[..n]);
      var i: nat :| i < n && cs[..n][i].body == before.last.value;
      assert cs[i].body == before.last.value;
    }
  }

  lemma {:induction false} OverlapNamesEarlier(source: seq<byte>, em: Emitter, cs: seq<Candidate>, k: nat)
    requires var s := Scanned(source, em, cs); k < |s.skipped| && s.skipped[k].reason.Overlapping?
    ensures var rec := Scanned(source, em, cs).skipped[k];
            exists i: nat, j: nat :: Clash(cs, i, j, rec.reason.previous, rec.reason.current)
    ensures var rec := Scanned(source, em, cs).skipped[k]; rec.reason.current == rec.range
    decreases |cs|
  {
    hide StartsWithAnchor, CharBoundary;
    var n := |cs| - 1;
    var before := Scanned(source, em, cs[..n]);
    if k < |before.skipped| {
      OverlapNamesEarlier(source, em, cs[..n], k);
      var rec := before.skipped[k];
      var i: nat, j: nat :| Clash(cs[..n], i, j, rec.reason.previous, rec.reason.current);
      assert Clash(cs, i, j, rec.reason.previous, rec.reason.current);
    } else {
      LastIsInput(source, em, cs[..n]);
      var i: nat :| i < n && cs[..n][i].body == before.last.value;
      assert Clash(cs, i, n, before.last.value, cs[n].body);
    }
  }

  lemma {:induction false} OverlapNamesAccepted(source: seq<byte>, em: Emitter, cs: seq<Candidate>, k: nat)
    requires var s := Scanned(source, em, cs); k < |s.skipped| && s.skipped[k].reason.Overlapping?
    ensures var s := Scanned(source, em, cs);
            exists a :: a in s.accepted && a.body == s.skipped[k].reason.previous
    decreases |cs|
  {
    hide StartsWithAnchor, CharBoundary;
    var n := |cs| - 1;
    var before := Scanned(source, em, cs[..n]);
    if k < |before.skipped| {
      OverlapNamesAccepted(source, em, cs[..n], k);
    } else {
      AcceptedAreDisjoint(source, em, cs[..n]);
      assert before.accepted[|before.accepted| - 1].body == before.last.value;
    }
  }

  /** An overlap skip names an accepted body, which really intersects the skipped one. */
  lemma OverlapSkipsAreReal(source: seq<byte>, em: Emitter, cs: seq<Candidate>, k: nat)
    requires var s := Planned(source, em, cs); k < |s.skipped| && s.skipped[k].reason.Overlapping?
    ensures var s := Planned(source, em, cs);
            var rec := s.skipped[k];
            && rec.range == rec.reason.current
            && rec.reason.previous.start <= rec.range.start < rec.reason.previous.end && rec.range.start < rec.range.end
            && exists a :: a in s.accepted && a.body == rec.reason.previous
  {
    hide Scanned, NameLe;
    var sorted := Sort(CandidateLe, cs);
    OverlapNamesEarlier(source, em, sorted, k);
    OverlapNamesAccepted(source, em, sorted, k);
    var rec := Planned(source, em, cs).skipped[k];
    var i: nat, j: nat :| Clash(sorted, i, j, rec.reason.previous, rec.reason.current);
    CandidateOrder();
    SortSorts(CandidateLe, cs);
    assert CandidateLe(sorted[i], sorted[j]);
  }

  predicate Apart(a: Candidate, b: Candidate) { a.body.end <= b.body.start || b.body.end <= a.body.start }

  lemma {:induction false} OverlapRefutesApart(source: seq<byte>, em: Emitter, cs: seq<Candidate>, k: nat)
    requires var s := Planned(source, em, cs); k < |s.skipped| && s.skipped[k].reason.Overlapping?
    ensures !Pairwise(Apart, Sort(CandidateLe, cs))
  {
    hide Scanned, NameLe;
    var sorted := Sort(CandidateLe, cs);
    OverlapNamesEarlier(source, em, sorted, k);
    var rec := Planned(source, em, cs).skipped[k];
    var i: nat, j: nat :| Clash(sorted, i, j, rec.reason.previous, rec.reason.current);
    CandidateOrder();
    SortSorts(CandidateLe, cs);
    assert CandidateLe(sorted[i], sorted[j]) && !Apart(sorted[i], sorted[j]);
  }

  /** Disjoint candidate bodies, such as an analyzer reports, are never skipped for overlap. */
  lemma DisjointBodiesNeverOverlap(source: seq<byte>, em: Emitter, cs: seq<Candidate>)
    requires Pairwise(Apart, cs)
    ensures forall k :: 0 <= k < |Planned(source, em, cs).skipped| ==>
              !Planned(source, em, cs).skipped[k].reason.Overlapping?
  {
    hide Scanned, CandidateLe;
    CandidateOrder();
    SortKeepsPairwise(CandidateLe, Apart, cs);
    forall k | 0 <= k < |Planned(source, em, cs).skipped|
      ensures !Planned(source, em, cs).skipped[k].reason.Overlapping?
    {
      if Planned(source, em, cs).skipped[k].reason.Overlapping? { OverlapRefutesApart(source, em, cs, k); }
    }
  }

  lemma SameKeySameName(a: Candidate, b: Candidate)
    requires CandidateLe(a, b) && CandidateLe(b, a)
    ensures a.name == b.name && a.body == b.body
  {
    NameLeIsTotal(a.name, b.name);
  }

  /**
    When a (start, end, name) key determines the candidate, the whole plan is the same for every
    order of the candidate list.
   */
  lemma OrderDoesNotMatter(source: seq<byte>, em: Emitter, cs: seq<Candidate>, ds: seq<Candidate>, spawns: seq<Range>)
    requires multiset(cs) == multiset(ds)
    requires forall a, b :: a in cs && b in cs && a.name == b.name && a.body == b.body ==> a == b
    ensures Edits(source, cs, spawns, em) == Edits(source, ds, spawns, em)
    ensures Planned(source, em, cs) == Planned(source, em, ds)
  {
    hide CandidateLe, Scanned;
    CandidateOrder();
    SortSorts(CandidateLe, cs);
    SortSorts(CandidateLe, ds);
    SortHasSameElements(CandidateLe, cs);
    var s := Sort(CandidateLe, cs);
    forall a, b | a in s && b in s && CandidateLe(a, b) && CandidateLe(b, a) ensures a == b {
      SameKeySameName(a, b);
    }
    SortedPermutationsAgree(CandidateLe, s, Sort(CandidateLe, ds));
  }
}
