/** Interval union: overlapping or touching spans of a source are merged into maximal ones. */
module SourceSpans {
  import opened Sorting

  /** A half-open stretch of a source, with the position of its quote in the selection. */
  datatype Span = Span(start: nat, end: nat, ordinal: nat)

  predicate SpanLe(a: Span, b: Span) {
    a.start < b.start || (a.start == b.start && (a.end < b.end || (a.end == b.end && a.ordinal <= b.ordinal)))
  }

  lemma SpanLeIsTotalOrder()
    ensures TotalOrder(SpanLe)
  {
  }

  function Max(a: nat, b: nat): nat { if a < b then b else a }

  function Min(a: nat, b: nat): nat { if a < b then a else b }

  // ---------- what a union of spans is ----------

  predicate Nonempty(spans: seq<Span>) {
    forall i :: 0 <= i < |spans| ==> spans[i].start < spans[i].end
  }

  ghost predicate Covers(spans: seq<Span>, p: int) {
    exists i :: 0 <= i < |spans| && spans[i].start <= p < spans[i].end
  }

  /** Sorted, with at least one uncovered position between neighbours. */
  predicate Separated(m: seq<Span>) {
    forall i, j :: 0 <= i < j < |m| ==> m[i].end < m[j].start
  }

  predicate Within(a: Span, b: Span) {
    b.start <= a.start && a.end <= b.end
  }

  ghost predicate SameCover(a: seq<Span>, b: seq<Span>) {
    forall p :: Covers(a, p) <==> Covers(b, p)
  }

  /** The span lies in a stretch ranked no later than itself. */
  ghost predicate Hosted(m: seq<Span>, s: Span) {
    exists k :: 0 <= k < |m| && Within(s, m[k]) && m[k].ordinal <= s.ordinal
  }

  /** The stretch has the rank of a span inside it. */
  ghost predicate Ranked(spans: seq<Span>, t: Span) {
    exists i :: 0 <= i < |spans| && Within(spans[i], t) && t.ordinal == spans[i].ordinal
  }

  /** `m` holds the maximal stretches of `spans`, each ranked by the earliest selection inside it. */
  ghost predicate IsUnion(spans: seq<Span>, m: seq<Span>) {
    && Nonempty(m) && Separated(m) && SameCover(m, spans)
    && (forall i :: 0 <= i < |spans| ==> Hosted(m, spans[i]))
    && forall k :: 0 <= k < |m| ==> Ranked(spans, m[k])
  }

  // ---------- the merge ----------

  /** One step of the loop: the span joins the last stretch when it starts inside it or at its end. */
  function Absorb(m: seq<Span>, s: Span): seq<Span> {
    if m != [] && s.start <= m[|m| - 1].end then
      var last := m[|m| - 1];
      m[|m| - 1 := Span(last.start, Max(last.end, s.end), Min(last.ordinal, s.ordinal))]
    else m + [s]
  }

  function MergeSorted(spans: seq<Span>): seq<Span>
    decreases |spans|
  {
    if spans == [] then [] else Absorb(MergeSorted(spans[..|spans| - 1]), spans[|spans| - 1])
  }

  function Merge(spans: seq<Span>): seq<Span> { MergeSorted(Sort(SpanLe, spans)) }

  /** The merging loop, which overwrites the last stretch in place. */
  method MergeSpans(spans: seq<Span>) returns (merged: seq<Span>)
    requires Nonempty(spans)
    ensures merged == Merge(spans)
    ensures IsUnion(spans, merged)
  {
    hide Sort, IsUnion;
    var sorted := Sort(SpanLe, spans);
    merged := [];
    for i := 0 to |sorted|
      invariant merged == MergeSorted(sorted[..i])
    {
      var s := sorted[i];
      assert sorted[..i + 1][..i] == sorted[..i];
      if merged != [] && s.start <= merged[|merged| - 1].end {
        var previous := merged[|merged| - 1];
        merged := merged[|merged| - 1 := Span(previous.start, Max(previous.end, s.end), Min(previous.ordinal, s.ordinal))];
      } else {
        merged := merged + [s];
      }
    }
    assert sorted[..|sorted|] == sorted;
    MergeIsUnion(spans);
  }

  lemma AbsorbCovers(m: seq<Span>, s: Span, p: int)
    requires s.start < s.end && Nonempty(m)
    requires forall k :: 0 <= k < |m| ==> m[k].start <= s.start
    ensures Covers(Absorb(m, s), p) <==> Covers(m, p) || s.start <= p < s.end
  {
    var r := Absorb(m, s);
    if Covers(m, p) {
      var k :| 0 <= k < |m| && m[k].start <= p < m[k].end;
      assert r[k].start <= p < r[k].end;
    }
    if s.start <= p < s.end { assert r[|r| - 1].start <= p < r[|r| - 1].end; }
    if Covers(r, p) {
      var k :| 0 <= k < |r| && r[k].start <= p < r[k].end;
      if k < |m| && r[k] == m[k] { assert m[k].start <= p < m[k].end; }
      else if m != [] && k == |m| - 1 && p < m[k].end { assert m[k].start <= p < m[k].end; }
    }
  }

  /** Widening or adding a stretch keeps a place for whatever had one, and makes one for the new span. */
  lemma AbsorbHosts(m: seq<Span>, s: Span, t: Span)
    requires Hosted(m, t) || t == s
    requires forall k :: 0 <= k < |m| ==> m[k].start <= s.start
    ensures Hosted(Absorb(m, s), t)
  {
    var r := Absorb(m, s);
    if Hosted(m, t) {
      var k :| 0 <= k < |m| && Within(t, m[k]) && m[k].ordinal <= t.ordinal;
      assert Within(t, r[k]) && r[k].ordinal <= t.ordinal;
    } else {
      assert Within(t, r[|r| - 1]) && r[|r| - 1].ordinal <= t.ordinal;
    }
  }

  lemma AbsorbRanks(spans: seq<Span>, m: seq<Span>, s: Span, k: nat)
    requires k < |Absorb(m, s)| && (k < |m| ==> Ranked(spans, m[k]))
    requires forall k :: 0 <= k < |m| ==> m[k].start <= s.start
    ensures Ranked(spans + [s], Absorb(m, s)[k])
  {
    var t, all := Absorb(m, s)[k], spans + [s];
    if k < |m| && t.ordinal == m[k].ordinal {
      var i :| 0 <= i < |spans| && Within(spans[i], m[k]) && m[k].ordinal == spans[i].ordinal;
      assert Within(all[i], t) && t.ordinal == all[i].ordinal;
    } else {
      assert Within(all[|spans|], t) && t.ordinal == all[|spans|].ordinal;
    }
  }

  lemma AbsorbUnion(spans: seq<Span>, m: seq<Span>, s: Span)
    requires IsUnion(spans, m) && s.start < s.end
    requires forall k :: 0 <= k < |m| ==> m[k].start <= s.start
    ensures IsUnion(spans + [s], Absorb(m, s))
  {
    hide Covers, Hosted, Ranked;
    var r, all := Absorb(m, s), spans + [s];
    forall p ensures Covers(r, p) <==> Covers(all, p) {
      AbsorbCovers(m, s, p);
      CoversLast(spans, s, p);
    }
    forall i | 0 <= i < |all| ensures Hosted(r, all[i]) { AbsorbHosts(m, s, all[i]); }
    forall k | 0 <= k < |r| ensures Ranked(all, r[k]) { AbsorbRanks(spans, m, s, k); }
  }

  lemma CoversLast(spans: seq<Span>, s: Span, p: int)
    ensures Covers(spans + [s], p) <==> Covers(spans, p) || s.start <= p < s.end
  {
    var all := spans + [s];
    if Covers(spans, p) {
      var i :| 0 <= i < |spans| && spans[i].start <= p < spans[i].end;
      assert all[i].start <= p < all[i].end;
    }
    if s.start <= p < s.end { assert all[|spans|].start <= p < all[|spans|].end; }
  }

  lemma {:induction false} MergeSortedIsUnion(spans: seq<Span>)
    requires Nonempty(spans) && Sorted(SpanLe, spans)
    ensures IsUnion(spans, MergeSorted(spans))
    ensures forall k :: 0 <= k < |MergeSorted(spans)| ==> spans != [] && MergeSorted(spans)[k].start <= spans[|spans| - 1].start
    decreases |spans|
  {
    hide IsUnion, Sorted;
    if spans == [] {
      EmptyUnion();
    } else {
      var init, s := spans[..|spans| - 1], spans[|spans| - 1];
      SortedInit(spans);
      MergeSortedIsUnion(init);
      AbsorbUnion(init, MergeSorted(init), s);
      assert init + [s] == spans;
    }
  }

  lemma SortedInit(spans: seq<Span>)
    requires spans != [] && Sorted(SpanLe, spans)
    ensures Sorted(SpanLe, spans[..|spans| - 1])
    ensures |spans| > 1 ==> spans[|spans| - 2].start <= spans[|spans| - 1].start
  {
    if |spans| > 1 { assert SpanLe(spans[|spans| - 2], spans[|spans| - 1]); }
  }

  lemma EmptyUnion()
    ensures IsUnion([], [])
  {
  }

  /** Sorting first does not change what is covered. */
  lemma MergeIsUnion(spans: seq<Span>)
    requires Nonempty(spans)
    ensures IsUnion(spans, Merge(spans))
  {
    hide Sort, MergeSorted, IsUnion, Sorted;
    var sorted := Sort(SpanLe, spans);
    SpanLeIsTotalOrder();
    SortSorts(SpanLe, spans);
    forall x ensures x in sorted <==> x in spans { InSort(SpanLe, spans, x); }
    assert forall i :: 0 <= i < |sorted| ==> sorted[i] in spans;
    MergeSortedIsUnion(sorted);
    SameElements(sorted, spans, MergeSorted(sorted));
  }

  lemma SameElements(a: seq<Span>, b: seq<Span>, m: seq<Span>)
    requires IsUnion(a, m) && forall x :: x in a <==> x in b
    ensures IsUnion(b, m)
  {
    hide Nonempty, Separated, Hosted, Ranked, Covers;
    forall p ensures Covers(a, p) <==> Covers(b, p) { MoreCovered(a, b, p); MoreCovered(b, a, p); }
    forall i | 0 <= i < |b| ensures Hosted(m, b[i]) { assert b[i] in a; }
    forall k | 0 <= k < |m| ensures Ranked(b, m[k]) { MoreRanked(a, b, m[k]); }
  }

  lemma MoreCovered(a: seq<Span>, b: seq<Span>, p: int)
    requires forall x :: x in a ==> x in b
    ensures Covers(a, p) ==> Covers(b, p)
  {
    if Covers(a, p) {
      var i :| 0 <= i < |a| && a[i].start <= p < a[i].end;
      assert a[i] in b;
    }
  }

  lemma MoreRanked(a: seq<Span>, b: seq<Span>, t: Span)
    requires Ranked(a, t) && forall x :: x in a ==> x in b
    ensures Ranked(b, t)
  {
    var i :| 0 <= i < |a| && Within(a[i], t) && t.ordinal == a[i].ordinal;
    assert a[i] in b;
  }

  // ---------- the union is determined by what is covered ----------

  predicate SameStretches(a: seq<Span>, b: seq<Span>) {
    |a| == |b| && forall k :: 0 <= k < |a| ==> a[k].start == b[k].start && a[k].end == b[k].end
  }

  lemma EndUncovered(a: seq<Span>)
    requires Nonempty(a) && Separated(a) && a != []
    ensures !Covers(a, a[0].end)
  {
    forall k | 0 <= k < |a| ensures !(a[k].start <= a[0].end < a[k].end) {}
  }

  /** The first stretch runs from the first covered position to the next uncovered one. */
  lemma FirstStretch(a: seq<Span>, b: seq<Span>)
    requires Nonempty(a) && Separated(a) && Nonempty(b) && Separated(b) && SameCover(a, b)
    requires a != []
    ensures b != [] && b[0].start <= a[0].start && b[0].end <= a[0].end
  {
    assert Covers(a, a[0].start);
    var i :| 0 <= i < |b| && b[i].start <= a[0].start < b[i].end;
    EndUncovered(a);
    CoveredByFirst(b, a[0].end);
  }

  lemma CoveredByFirst(b: seq<Span>, p: int)
    ensures b != [] && b[0].start <= p < b[0].end ==> Covers(b, p)
  {
  }

  lemma CoversTail(a: seq<Span>, p: int)
    requires Nonempty(a) && Separated(a) && a != []
    ensures Covers(a[1..], p) <==> Covers(a, p) && a[0].end <= p
  {
    if Covers(a[1..], p) {
      var i :| 0 <= i < |a[1..]| && a[1..][i].start <= p < a[1..][i].end;
      assert a[i + 1].start <= p < a[i + 1].end;
    }
    if Covers(a, p) && a[0].end <= p {
      var i :| 0 <= i < |a| && a[i].start <= p < a[i].end;
      assert a[1..][i - 1] == a[i];
    }
  }

  /** Two separated lists that cover the same positions have the same stretches. */
  lemma {:induction false} UnionUnique(a: seq<Span>, b: seq<Span>)
    requires Nonempty(a) && Separated(a) && Nonempty(b) && Separated(b) && SameCover(a, b)
    ensures SameStretches(a, b)
  {
    hide Covers;
    if a != [] { FirstStretch(a, b); }
    if b != [] { FirstStretch(b, a); }
    if a != [] {
      forall p ensures Covers(a[1..], p) <==> Covers(b[1..], p) { CoversTail(a, p); CoversTail(b, p); }
      UnionUnique(a[1..], b[1..]);
      assert a == [a[0]] + a[1..] && b == [b[0]] + b[1..];
    }
  }

  /** Neighbouring covered positions lie in one stretch. */
  lemma OneStretch(m: seq<Span>, p: int) returns (k: nat)
    requires Separated(m) && Covers(m, p) && Covers(m, p + 1)
    ensures k < |m| && m[k].start <= p && p + 2 <= m[k].end
  {
    var i :| 0 <= i < |m| && m[i].start <= p < m[i].end;
    var j :| 0 <= j < |m| && m[j].start <= p + 1 < m[j].end;
    k := i;
  }
}
