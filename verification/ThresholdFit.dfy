/** Fitting of the similarity threshold: an order statistic of the best relevant scores of the fit cases. */
module ThresholdFit {
  import opened Wrappers
  import opened Sorting

  const TOP := 5

  datatype Candidate = Candidate(sourceKey: string, pageStart: int, checksum: string, similarity: real)
  datatype Case = Case(sourceKey: string, pageStart: int, acceptable: set<string>)
  datatype Item = Item(expected: Case, candidates: seq<Candidate>)
  datatype FitError = LacksRelevantCandidate | IndexOutOfRange

  predicate Gold(c: Candidate, k: Case) {
    c.sourceKey == k.sourceKey && c.pageStart == k.pageStart && c.checksum in k.acceptable
  }

  function Top<T>(s: seq<T>): seq<T> { if |s| <= TOP then s else s[..TOP] }

  function Eligible(candidates: seq<Candidate>, threshold: real): seq<Candidate>
    decreases |candidates|
  {
    if candidates == [] then []
    else
      Eligible(candidates[..|candidates| - 1], threshold)
      + if candidates[|candidates| - 1].similarity >= threshold then [candidates[|candidates| - 1]] else []
  }

  predicate AnyGold(candidates: seq<Candidate>, k: Case) {
    exists i :: 0 <= i < |candidates| && Gold(candidates[i], k)
  }

  predicate HasGold(item: Item, threshold: real) {
    AnyGold(Top(Eligible(item.candidates, threshold)), item.expected)
  }

  // ---------- the fit ----------

  /** The best similarity of a relevant candidate among the first five. */
  ghost predicate IsBest(item: Item, best: real) {
    && (exists i :: 0 <= i < |Top(item.candidates)| && Gold(item.candidates[i], item.expected) && item.candidates[i].similarity == best)
    && forall i :: 0 <= i < |Top(item.candidates)| && Gold(item.candidates[i], item.expected) ==> item.candidates[i].similarity <= best
  }

  method BestGoldScore(item: Item) returns (r: Option<real>)
    ensures r.None? <==> !AnyGold(Top(item.candidates), item.expected)
    ensures r.Some? ==> IsBest(item, r.value)
    ensures forall i :: 0 <= i < |item.candidates| && i < 5 ==>
              var c := item.candidates[i];
              c.sourceKey == item.expected.sourceKey && c.pageStart == item.expected.pageStart && c.checksum in item.expected.acceptable ==>
                r.Some? && c.similarity <= r.value
    ensures r.Some? ==>
              exists i :: 0 <= i < |item.candidates| && i < 5 &&
                var c := item.candidates[i];
                && c.sourceKey == item.expected.sourceKey && c.pageStart == item.expected.pageStart
                && c.checksum in item.expected.acceptable && c.similarity == r.value
  {
    r := None;
    var first := Top(item.candidates);
    for i := 0 to |first|
      invariant r.None? <==> forall j :: 0 <= j < i ==> !Gold(first[j], item.expected)
      invariant r.Some? ==> exists j :: 0 <= j < i && Gold(first[j], item.expected) && first[j].similarity == r.value
      invariant r.Some? ==> forall j :: 0 <= j < i && Gold(first[j], item.expected) ==> first[j].similarity <= r.value
    {
      if Gold(first[i], item.expected) {
        r := Some(if r.Some? && r.value > first[i].similarity then r.value else first[i].similarity);
      }
    }
    assert forall i :: 0 <= i < |first| ==> first[i] == item.candidates[i];
    if r.Some? {
      var j :| 0 <= j < |first| && Gold(first[j], item.expected) && first[j].similarity == r.value;
      assert Gold(item.candidates[j], item.expected) && item.candidates[j].similarity == r.value;
    }
  }

  ghost predicate BestScores(items: seq<Item>, scores: seq<real>) {
    |scores| == |items| && forall i :: 0 <= i < |items| ==> IsBest(items[i], scores[i])
  }

  predicate Ascending(a: real, b: real) { a <= b }

  /** The index as Python takes it: a negative index counts from the end. */
  function At(index: int, length: nat): Option<nat> {
    if 0 <= index < length then Some(index)
    else if index < 0 <= index + length then Some(index + length)
    else None
  }

  function MissIndex(rate: real, n: nat): int { (rate * n as real).Floor }

  method FitThreshold(items: seq<Item>, rate: real) returns (r: Result<real, FitError>, ghost scores: seq<real>)
    ensures r == Failure(LacksRelevantCandidate) <==> exists i :: 0 <= i < |items| && !AnyGold(Top(items[i].candidates), items[i].expected)
    ensures r == Failure(IndexOutOfRange) <==>
              (forall i :: 0 <= i < |items| ==> AnyGold(Top(items[i].candidates), items[i].expected)) && At(MissIndex(rate, |items|), |items|) == None
    ensures r.Success? ==>
              && BestScores(items, scores) && At(MissIndex(rate, |items|), |items|).Some?
              && |Sort(Ascending, scores)| == |items|
              && r.value == Sort(Ascending, scores)[At(MissIndex(rate, |items|), |items|).value]
  {
    hide IsBest, AnyGold, Sort, Top;
    var best: seq<real> := [];
    scores := [];
    for i := 0 to |items|
      invariant BestScores(items[..i], best)
      invariant forall k :: 0 <= k < i ==> AnyGold(Top(items[k].candidates), items[k].expected)
    {
      var score := BestGoldScore(items[i]);
      if score.None? { return Failure(LacksRelevantCandidate), []; }
      best := best + [score.value];
    }
    assert items[..|items|] == items;
    scores := best;
    var ordered := Sort(Ascending, best);
    SortPermutes(Ascending, best);
    var index := At(MissIndex(rate, |ordered|), |ordered|);
    if index.None? { return Failure(IndexOutOfRange), best; }
    r := Success(ordered[index.value]);
  }

  // ---------- the fitted value is an order statistic ----------

  function CountBelow(scores: seq<real>, t: real): nat
    decreases |scores|
  {
    if scores == [] then 0
    else CountBelow(scores[..|scores| - 1], t) + if scores[|scores| - 1] < t then 1 else 0
  }

  lemma {:induction false} CountInsert(x: real, s: seq<real>, t: real)
    ensures CountBelow(Insert(Ascending, x, s), t) == CountBelow(s, t) + if x < t then 1 else 0
    decreases |s|
  {
    if s == [] || s[|s| - 1] <= x {
      assert Insert(Ascending, x, s) == s + [x] && (s + [x])[..|s|] == s;
    } else {
      var init, last := s[..|s| - 1], s[|s| - 1];
      CountInsert(x, init, t);
      var r := Insert(Ascending, x, init);
      assert Insert(Ascending, x, s) == r + [last] && (r + [last])[..|r|] == r;
    }
  }

  lemma {:induction false} CountSort(s: seq<real>, t: real)
    ensures CountBelow(Sort(Ascending, s), t) == CountBelow(s, t)
    decreases |s|
  {
    if s != [] {
      CountSort(s[..|s| - 1], t);
      CountInsert(s[|s| - 1], Sort(Ascending, s[..|s| - 1]), t);
    }
  }

  lemma {:induction false} FewBelow(s: seq<real>, k: nat, t: real)
    requires forall i :: k <= i < |s| ==> s[i] >= t
    ensures CountBelow(s, t) <= k && CountBelow(s, t) <= |s|
    decreases |s|
  {
    if s != [] { FewBelow(s[..|s| - 1], k, t); }
  }

  lemma {:induction false} ManyBelow(s: seq<real>, k: nat, t: real)
    requires k <= |s| && forall i :: 0 <= i < k ==> s[i] < t
    ensures CountBelow(s, t) >= k
    decreases |s|
  {
    if k > 0 { ManyBelow(s[..|s| - 1], if k == |s| then k - 1 else k, t); }
  }

  /** The fitted threshold is the greatest value below which at most `k` fit scores lie. */
  lemma ThresholdIsGreatest(scores: seq<real>, k: nat)
    requires k < |scores|
    ensures |Sort(Ascending, scores)| == |scores|
    ensures forall t :: CountBelow(scores, t) <= k <==> t <= Sort(Ascending, scores)[k]
  {
    hide Sort, CountBelow;
    var ordered := Sort(Ascending, scores);
    SortPermutes(Ascending, scores);
    SortSorts(Ascending, scores);
    forall t ensures CountBelow(scores, t) <= k <==> t <= ordered[k] {
      CountSort(scores, t);
      forall i | 0 <= i < |ordered| ensures (i < k ==> ordered[i] <= ordered[k]) && (k < i ==> ordered[k] <= ordered[i]) {}
      if t <= ordered[k] { FewBelow(ordered, k, t); } else { ManyBelow(ordered, k + 1, t); }
    }
  }

  // ---------- few fit cases miss ----------

  /** Filtering never moves an eligible candidate to a later place. */
  lemma {:induction false} EligibleKeepsPlace(candidates: seq<Candidate>, threshold: real, p: nat) returns (q: nat)
    requires p < |candidates| && candidates[p].similarity >= threshold
    ensures q <= p && q < |Eligible(candidates, threshold)| && Eligible(candidates, threshold)[q] == candidates[p]
    decreases |candidates|
  {
    var init := candidates[..|candidates| - 1];
    if p < |init| {
      q := EligibleKeepsPlace(init, threshold, p);
    } else {
      EligibleIsShorter(init, threshold);
      q := |Eligible(init, threshold)|;
    }
  }

  lemma {:induction false} EligibleIsShorter(candidates: seq<Candidate>, threshold: real)
    ensures |Eligible(candidates, threshold)| <= |candidates|
    decreases |candidates|
  {
    if candidates != [] { EligibleIsShorter(candidates[..|candidates| - 1], threshold); }
  }

  /** A case whose best score reaches the threshold keeps a relevant candidate in its first five. */
  lemma BestReachedMeansGold(item: Item, best: real, threshold: real)
    requires IsBest(item, best) && best >= threshold
    ensures HasGold(item, threshold)
  {
    hide Eligible, Gold;
    var p :| 0 <= p < |Top(item.candidates)| && Gold(item.candidates[p], item.expected) && item.candidates[p].similarity == best;
    var q := EligibleKeepsPlace(item.candidates, threshold, p);
    var e := Eligible(item.candidates, threshold);
    assert Top(e)[q] == e[q];
  }

  // ---------- where filtering brings a candidate ----------

  /** After filtering, a candidate stands behind the eligible ones that stood before it. */
  lemma {:induction false} EligiblePlace(candidates: seq<Candidate>, threshold: real, p: nat)
    requires p < |candidates| && candidates[p].similarity >= threshold
    ensures var q := |Eligible(candidates[..p], threshold)|;
            q < |Eligible(candidates, threshold)| && Eligible(candidates, threshold)[q] == candidates[p]
    decreases |candidates|
  {
    var init := candidates[..|candidates| - 1];
    if p < |init| {
      EligiblePlace(init, threshold, p);
      assert init[..p] == candidates[..p];
    } else {
      assert candidates[..p] == init;
    }
  }

  /** Every eligible candidate has such a place. */
  lemma {:induction false} PlaceOf(candidates: seq<Candidate>, threshold: real, q: nat) returns (p: nat)
    requires q < |Eligible(candidates, threshold)|
    ensures p < |candidates| && candidates[p].similarity >= threshold && candidates[p] == Eligible(candidates, threshold)[q]
    ensures |Eligible(candidates[..p], threshold)| == q
    decreases |candidates|
  {
    var init := candidates[..|candidates| - 1];
    if q < |Eligible(init, threshold)| {
      p := PlaceOf(init, threshold, q);
      assert init[..p] == candidates[..p];
    } else {
      p := |init|;
      assert candidates[..p] == init;
    }
  }

  /** A higher threshold leaves fewer candidates. */
  lemma {:induction false} EligibleShrinks(candidates: seq<Candidate>, low: real, high: real)
    requires low <= high
    ensures |Eligible(candidates, high)| <= |Eligible(candidates, low)|
    decreases |candidates|
  {
    if candidates != [] { EligibleShrinks(candidates[..|candidates| - 1], low, high); }
  }

  /** The relevant candidate at `p` is eligible and fewer than five eligible ones stand before it. */
  predicate Shows(item: Item, threshold: real, p: nat) {
    p < |item.candidates| && Gold(item.candidates[p], item.expected) && item.candidates[p].similarity >= threshold
    && |Eligible(item.candidates[..p], threshold)| < TOP
  }

  lemma HasGoldMeansShown(item: Item, threshold: real)
    ensures HasGold(item, threshold) <==> exists p: nat :: Shows(item, threshold, p)
  {
    hide Eligible, Gold;
    var e := Eligible(item.candidates, threshold);
    if HasGold(item, threshold) {
      var i :| 0 <= i < |Top(e)| && Gold(Top(e)[i], item.expected);
      var p := PlaceOf(item.candidates, threshold, i);
      assert Top(e)[i] == e[i];
      assert Shows(item, threshold, p);
    }
    if p: nat :| Shows(item, threshold, p) {
      EligiblePlace(item.candidates, threshold, p);
      var q := |Eligible(item.candidates[..p], threshold)|;
      assert Top(e)[q] == e[q];
    }
  }

  /** A candidate that is shown stays shown up to its own similarity. */
  lemma ShownHigher(item: Item, low: real, high: real, p: nat)
    requires Shows(item, low, p) && low <= high <= item.candidates[p].similarity
    ensures Shows(item, high, p)
  {
    hide Eligible, Gold;
    EligibleShrinks(item.candidates[..p], low, high);
  }

  // ---------- exactly when a case misses below its best score only ----------

  /** A relevant candidate behind the fifth place is better than the best one before, and fewer than five earlier
      candidates are at least as similar: a high threshold brings it into the first five. */
  predicate Overtakes(item: Item, best: real, p: nat) {
    TOP <= p && p < |item.candidates| && item.candidates[p].similarity > best && Shows(item, item.candidates[p].similarity, p)
  }

  ghost predicate Overtaken(item: Item, best: real) {
    exists p: nat :: Overtakes(item, best, p)
  }

  /** A case has its relevant candidate exactly up to its best score if and only if no candidate overtakes. */
  lemma MissesBelowBestIff(item: Item, best: real)
    requires IsBest(item, best)
    ensures (forall t :: HasGold(item, t) <==> t <= best) <==> !Overtaken(item, best)
  {
    hide HasGold, Shows;
    if p: nat :| Overtakes(item, best, p) {
      var t := item.candidates[p].similarity;
      HasGoldMeansShown(item, t);
      assert HasGold(item, t) && t > best;
    } else {
      forall t ensures HasGold(item, t) <==> t <= best {
        if t <= best { BestReachedMeansGold(item, best, t); }
        HasGoldMeansShown(item, t);
        forall p: nat | t > best && Shows(item, t, p) ensures Overtakes(item, best, p) {
          ShownIsGold(item, t, p);
          ShownHigher(item, t, item.candidates[p].similarity, p);
        }
      }
    }
  }

  lemma ShownIsGold(item: Item, threshold: real, p: nat)
    requires Shows(item, threshold, p)
    ensures p < |item.candidates| && Gold(item.candidates[p], item.expected) && item.candidates[p].similarity >= threshold
  {
  }

  predicate Ranked(candidates: seq<Candidate>) {
    forall i, j :: 0 <= i < j < |candidates| ==> candidates[i].similarity >= candidates[j].similarity
  }

  /** In a list ranked by similarity nothing overtakes. */
  lemma RankedIsNotOvertaken(item: Item, best: real)
    requires IsBest(item, best) && Ranked(item.candidates)
    ensures !Overtaken(item, best)
  {
    hide Eligible, Gold;
    var i :| 0 <= i < |Top(item.candidates)| && Gold(item.candidates[i], item.expected) && item.candidates[i].similarity == best;
    forall p | TOP <= p < |item.candidates| ensures item.candidates[p].similarity <= best {}
  }

  function Misses(items: seq<Item>, threshold: real): nat
    decreases |items|
  {
    if items == [] then 0
    else Misses(items[..|items| - 1], threshold) + if HasGold(items[|items| - 1], threshold) then 0 else 1
  }

  ghost predicate NoneOvertaken(items: seq<Item>, scores: seq<real>) {
    |scores| == |items| && forall i :: 0 <= i < |items| ==> !Overtaken(items[i], scores[i])
  }

  /** A relevant candidate behind the fifth place is shown at `u`, which is above the best score. */
  predicate Rescues(item: Item, best: real, u: real, p: nat) {
    TOP <= p && best < u && Shows(item, u, p)
  }

  ghost predicate Rescued(item: Item, best: real, u: real) {
    exists p: nat :: Rescues(item, best, u, p)
  }

  /** The number of cases below `u` that do not miss at `u`. */
  ghost function CountRescued(items: seq<Item>, scores: seq<real>, u: real): nat
    requires |items| == |scores|
    decreases |items|
  {
    if items == [] then 0
    else
      var last := |items| - 1;
      CountRescued(items[..last], scores[..last], u) + if Rescued(items[last], scores[last], u) then 1 else 0
  }

  /** A case misses exactly when its best score is below and nothing rescues it. */
  lemma MissMeans(item: Item, best: real, u: real)
    requires IsBest(item, best)
    ensures !HasGold(item, u) <==> best < u && !Rescued(item, best, u)
  {
    hide HasGold, Shows;
    if best >= u { BestReachedMeansGold(item, best, u); }
    HasGoldMeansShown(item, u);
    forall p: nat | best < u && Shows(item, u, p) ensures Rescues(item, best, u, p) { ShownIsGold(item, u, p); }
  }

  lemma RescuedIsOvertaken(item: Item, best: real, u: real)
    requires Rescued(item, best, u)
    ensures Overtaken(item, best)
  {
    hide Shows;
    var p: nat :| Rescues(item, best, u, p);
    ShownIsGold(item, u, p);
    ShownHigher(item, u, item.candidates[p].similarity, p);
    assert Overtakes(item, best, p);
  }

  /** The misses are the cases below the threshold without those that are rescued. */
  lemma {:induction false} MissesAreBelow(items: seq<Item>, scores: seq<real>, threshold: real)
    requires BestScores(items, scores)
    ensures Misses(items, threshold) == CountBelow(scores, threshold) - CountRescued(items, scores, threshold)
    ensures NoneOvertaken(items, scores) ==> CountRescued(items, scores, threshold) == 0
    decreases |items|
  {
    hide HasGold, IsBest, Overtaken, Rescued;
    if items != [] {
      var last := |items| - 1;
      MissesAreBelow(items[..last], scores[..last], threshold);
      MissMeans(items[last], scores[last], threshold);
      RescuedIsBelow(items[last], scores[last], threshold);
      if Rescued(items[last], scores[last], threshold) { RescuedIsOvertaken(items[last], scores[last], threshold); }
    }
  }

  lemma RescuedIsBelow(item: Item, best: real, u: real)
    ensures Rescued(item, best, u) ==> best < u
  {
  }

  // ---------- exactly when the fitted threshold is the greatest one ----------

  lemma {:induction false} MissesFewer(items: seq<Item>, t: real, u: real)
    requires forall i :: 0 <= i < |items| && HasGold(items[i], t) ==> HasGold(items[i], u)
    ensures Misses(items, u) <= Misses(items, t)
    decreases |items|
  {
    hide HasGold;
    if items != [] { MissesFewer(items[..|items| - 1], t, u); }
  }

  lemma {:induction false} AllMiss(items: seq<Item>, t: real)
    requires forall i :: 0 <= i < |items| ==> !HasGold(items[i], t)
    ensures Misses(items, t) == |items|
    decreases |items|
  {
    hide HasGold;
    if items != [] { AllMiss(items[..|items| - 1], t); }
  }

  /** `u` is the similarity of a relevant candidate of one of the cases. */
  ghost predicate GoldSimilarity(items: seq<Item>, u: real) {
    exists i: nat, p: nat :: GoldAt(items, i, p, u)
  }

  predicate GoldAt(items: seq<Item>, i: nat, p: nat, u: real) {
    i < |items| && p < |items[i].candidates| && Gold(items[i].candidates[p], items[i].expected) && items[i].candidates[p].similarity == u
  }

  predicate ReachesUp(item: Item, p: nat, u: real) {
    p < |item.candidates| && u <= item.candidates[p].similarity
  }

  ghost predicate ShownUpTo(item: Item, t: real, u: real) {
    exists p: nat :: Shows(item, t, p) && ReachesUp(item, p, u)
  }

  lemma ShownUpToLower(item: Item, t: real, u: real, v: real)
    requires ShownUpTo(item, t, u) && v <= u
    ensures ShownUpTo(item, t, v)
  {
    hide Shows;
    var p: nat :| Shows(item, t, p) && ReachesUp(item, p, u);
    assert ReachesUp(item, p, v);
  }

  /** Whatever has its relevant candidate at `t` still has it at some relevant candidate's similarity above. */
  lemma {:induction false} RaisedToGold(items: seq<Item>, t: real) returns (u: real)
    ensures t <= u
    ensures forall i :: 0 <= i < |items| && HasGold(items[i], t) ==> ShownUpTo(items[i], t, u)
    ensures (exists i :: 0 <= i < |items| && HasGold(items[i], t)) ==> GoldSimilarity(items, u)
    ensures (forall i :: 0 <= i < |items| ==> !HasGold(items[i], t)) ==> u == t
    decreases |items|
  {
    hide HasGold, Gold, Eligible;
    if items == [] {
      u := t;
    } else {
      var init, last := items[..|items| - 1], items[|items| - 1];
      u := RaisedToGold(init, t);
      var before := u;
      HasGoldMeansShown(last, t);
      if HasGold(last, t) {
        var p: nat :| Shows(last, t, p);
        var s := last.candidates[p].similarity;
        if s < u || forall i :: 0 <= i < |init| ==> !HasGold(init[i], t) {
          u := s;
          assert GoldAt(items, |init|, p, u);
        } else {
          GoldStays(items, u);
        }
        assert ReachesUp(last, p, u);
      } else if exists i :: 0 <= i < |init| && HasGold(init[i], t) {
        GoldStays(items, u);
      }
      forall i | 0 <= i < |items| && HasGold(items[i], t) ensures ShownUpTo(items[i], t, u) {
        if i < |init| { ShownUpToLower(init[i], t, before, u); }
      }
    }
  }

  lemma GoldStays(items: seq<Item>, u: real)
    requires items != []
    ensures GoldSimilarity(items[..|items| - 1], u) ==> GoldSimilarity(items, u)
  {
    hide Gold;
    var init := items[..|items| - 1];
    if i: nat, p: nat :| GoldAt(init, i, p, u) { assert GoldAt(items, i, p, u); }
  }

  /** If few cases miss at `t`, few miss at the similarity of some relevant candidate not below `t`. */
  lemma FewMissesRise(items: seq<Item>, k: nat, t: real)
    requires Misses(items, t) <= k < |items|
    ensures exists u :: GoldSimilarity(items, u) && t <= u && Misses(items, u) <= k
  {
    hide Misses, HasGold, Shows, GoldSimilarity;
    if forall i :: 0 <= i < |items| ==> !HasGold(items[i], t) { AllMiss(items, t); }
    var u := RaisedToGold(items, t);
    forall i | 0 <= i < |items| && HasGold(items[i], t) ensures HasGold(items[i], u) {
      var p: nat :| Shows(items[i], t, p) && ReachesUp(items[i], p, u);
      ShownHigher(items[i], t, u, p);
      HasGoldMeansShown(items[i], u);
    }
    MissesFewer(items, t, u);
  }

  /** At most `k` cases miss exactly at the thresholds up to this one. */
  ghost predicate FewMissUpTo(items: seq<Item>, k: nat, threshold: real) {
    forall t :: Misses(items, t) <= k <==> t <= threshold
  }

  /** At the similarity of every relevant candidate above, the best scores below, without those of the rescued cases,
      are more than `k`. */
  ghost predicate ManyStayBelow(items: seq<Item>, scores: seq<real>, k: nat, threshold: real)
    requires |items| == |scores|
  {
    forall u :: GoldSimilarity(items, u) && u > threshold ==> CountBelow(scores, u) - CountRescued(items, scores, u) > k
  }

  lemma FewMissMeans(items: seq<Item>, scores: seq<real>, k: nat, threshold: real)
    requires BestScores(items, scores) && k < |items| && forall t :: t <= threshold ==> Misses(items, t) <= k
    ensures FewMissUpTo(items, k, threshold) <==> ManyStayBelow(items, scores, k, threshold)
  {
    hide Misses, CountBelow, GoldSimilarity, CountRescued, IsBest;
    if FewMissUpTo(items, k, threshold) {
      forall u | u > threshold ensures CountBelow(scores, u) - CountRescued(items, scores, u) > k {
        MissesAreBelow(items, scores, u);
        assert Misses(items, u) > k;
      }
    } else {
      var t :| !(Misses(items, t) <= k <==> t <= threshold);
      FewMissesRise(items, k, t);
      var u :| GoldSimilarity(items, u) && t <= u && Misses(items, u) <= k;
      MissesAreBelow(items, scores, u);
    }
  }

  /** At the fitted threshold at most the tolerated number of fit cases misses. It is the greatest value with that
      property if and only if enough best scores stay below at every relevant candidate's similarity above it; that is
      so when no case is overtaken. */
  lemma FittedThresholdMissesFew(items: seq<Item>, scores: seq<real>, k: nat, threshold: real)
    requires BestScores(items, scores) && k < |items|
    requires |Sort(Ascending, scores)| == |items| && threshold == Sort(Ascending, scores)[k]
    ensures forall t :: t <= threshold ==> Misses(items, t) <= k
    ensures FewMissUpTo(items, k, threshold) <==> ManyStayBelow(items, scores, k, threshold)
    ensures NoneOvertaken(items, scores) ==> FewMissUpTo(items, k, threshold)
  {
    hide Sort, Misses, CountBelow, BestScores, NoneOvertaken, CountRescued, ManyStayBelow;
    BestScoresLength(items, scores);
    ThresholdIsGreatest(scores, k);
    forall t
      ensures t <= threshold ==> Misses(items, t) <= k
      ensures NoneOvertaken(items, scores) ==> (Misses(items, t) <= k <==> t <= threshold)
    {
      MissesAreBelow(items, scores, t);
      assert CountBelow(scores, t) <= k <==> t <= threshold;
    }
    FewMissMeans(items, scores, k, threshold);
  }

  /** A concrete case: its best relevant candidate among the first five is weak, a far better one stands sixth. The
      fitted threshold 0.1 is not the greatest one, since nothing misses at 0.9 either. */
  lemma AnOvertakenCase() returns (item: Item)
    ensures BestScores([item], [0.1]) && Overtaken(item, 0.1)
    ensures Misses([item], 0.1) == 0 && Misses([item], 0.9) == 0 && !FewMissUpTo([item], 0, 0.1)
  {
    var k := Case("doc", 1, {"x"});
    var weak, other, strong := Candidate("doc", 1, "x", 0.1), Candidate("other", 1, "y", 0.2), Candidate("doc", 1, "x", 0.9);
    item := Item(k, [weak, other, other, other, other, strong]);
    assert Gold(weak, k) && Gold(strong, k) && !Gold(other, k);
    WeakIsBest(item, weak, other, strong);
    NothingAbove(item.candidates[..5], 0.9);
    hide Gold, HasGold, IsBest, Eligible;
    assert item.candidates[5] == strong;
    assert Shows(item, 0.9, 5);
    assert Overtakes(item, 0.1, 5);
    HasGoldMeansShown(item, 0.9);
    BestReachedMeansGold(item, 0.1, 0.1);
    assert [item][..0] == [];
  }

  lemma WeakIsBest(item: Item, weak: Candidate, other: Candidate, strong: Candidate)
    requires item.candidates == [weak, other, other, other, other, strong]
    requires Gold(weak, item.expected) && !Gold(other, item.expected)
    ensures IsBest(item, weak.similarity)
  {
    hide Gold;
    assert item.candidates[0] == weak;
  }

  lemma {:induction false} NothingAbove(candidates: seq<Candidate>, threshold: real)
    requires forall i :: 0 <= i < |candidates| ==> candidates[i].similarity < threshold
    ensures Eligible(candidates, threshold) == []
    decreases |candidates|
  {
    if candidates != [] { NothingAbove(candidates[..|candidates| - 1], threshold); }
  }

  lemma BestScoresLength(items: seq<Item>, scores: seq<real>)
    requires BestScores(items, scores)
    ensures |scores| == |items|
  {
  }

  lemma Share(rate: real, whole: real)
    requires 0.0 <= rate < 1.0 && whole > 0.0
    ensures 0.0 <= rate * whole < whole
  {
    assert (1.0 - rate) * whole > 0.0;
  }

  /** The index is the number of whole cases in the tolerated share, counted from the end when it is negative. */
  lemma IndexMeans(rate: real, n: nat)
    ensures MissIndex(rate, n) as real <= rate * n as real < (MissIndex(rate, n) + 1) as real
    ensures forall i: int :: (At(i, n).Some? <==> 0 - n <= i < n) && (At(i, n).Some? ==> At(i, n).value == i + (if i < 0 then n else 0))
  {
  }

  /** A tolerated rate from 0 up to but excluding 1 always selects an entry, the one at its rounded-down share. */
  lemma RateSelects(rate: real, n: nat)
    requires 0.0 <= rate < 1.0 && n > 0
    ensures 0 <= MissIndex(rate, n) < n && At(MissIndex(rate, n), n) == Some(MissIndex(rate, n))
  {
    Share(rate, n as real);
    FloorBelow(rate * n as real, n);
  }

  lemma FloorBelow(x: real, n: nat)
    requires 0.0 <= x < n as real
    ensures 0 <= x.Floor < n
  {
  }
}
