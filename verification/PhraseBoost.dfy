/** Reranking by a blend of normalised BM25 and the share of adjacent query pairs found in a candidate. Scores are
    exact reals, token lists are given. */
module PhraseBoost {
  import opened Wrappers
  import opened Sorting

  datatype Candidate = Candidate(id: string, bm25: Option<real>, fusion: Option<real>, tokens: seq<string>)
  datatype Evaluated = Evaluated(combined: real, raw: real, normalized: real, matched: nat, ratio: real, candidate: Candidate)
  datatype Ranked = Ranked(evaluated: Evaluated, totalPairs: nat, rank: nat)

  /** The BM25 score where there is one, otherwise the fusion score, otherwise 0. */
  function Raw(c: Candidate): real {
    if c.bm25.Some? then c.bm25.value else if c.fusion.Some? then c.fusion.value else 0.0
  }

  function Raws(candidates: seq<Candidate>): (r: seq<real>)
    ensures |r| == |candidates| && forall i :: 0 <= i < |r| ==> r[i] == Raw(candidates[i])
  {
    Map(Raw, candidates)
  }

  function Lowest(s: seq<real>): (r: real)
    requires s != []
    ensures r in s && forall i :: 0 <= i < |s| ==> r <= s[i]
  {
    if |s| == 1 then s[0]
    else
      var rest := Lowest(s[1..]);
      if s[0] <= rest then s[0] else rest
  }

  function Highest(s: seq<real>): (r: real)
    requires s != []
    ensures r in s && forall i :: 0 <= i < |s| ==> s[i] <= r
  {
    if |s| == 1 then s[0]
    else
      var rest := Highest(s[1..]);
      if s[0] >= rest then s[0] else rest
  }

  // ---------- phrases ----------

  predicate Adjacent(tokens: seq<string>, first: string, second: string) {
    exists i :: 0 <= i < |tokens| - 1 && tokens[i] == first && tokens[i + 1] == second
  }

  function Pairs(query: seq<string>): nat { if |query| >= 2 then |query| - 1 else 0 }

  /** How many of the first `n` adjacent query pairs stand next to each other in the tokens. */
  function Matched(query: seq<string>, tokens: seq<string>, n: nat): nat
    requires n <= Pairs(query)
  {
    if n == 0 then 0
    else Matched(query, tokens, n - 1) + if Adjacent(tokens, query[n - 1], query[n]) then 1 else 0
  }

  method MatchedPairs(query: seq<string>, tokens: seq<string>) returns (count: nat)
    ensures count == Matched(query, tokens, Pairs(query)) && count <= Pairs(query)
  {
    count := 0;
    for p := 0 to Pairs(query)
      invariant count == Matched(query, tokens, p) && count <= p
    {
      var matched := false;
      var i := 0;
      while i < |tokens| - 1
        invariant 0 <= i
        invariant !matched && forall j :: 0 <= j < i && j < |tokens| - 1 ==> !(tokens[j] == query[p] && tokens[j + 1] == query[p + 1])
      {
        if tokens[i] == query[p] && tokens[i + 1] == query[p + 1] {
          matched := true;
          break;
        }
        i := i + 1;
      }
      if matched { count := count + 1; }
    }
  }

  lemma {:induction false} MatchedAtMost(query: seq<string>, tokens: seq<string>, n: nat)
    requires n <= Pairs(query)
    ensures Matched(query, tokens, n) <= n
  {
    hide Adjacent;
    if n > 0 { MatchedAtMost(query, tokens, n - 1); }
  }

  // ---------- scores ----------

  function Normalized(raw: real, lowest: real, highest: real): real {
    if highest - lowest > 0.0 then (raw - lowest) / (highest - lowest) else 0.0
  }

  function Ratio(matched: nat, pairs: nat): real {
    if pairs > 0 then matched as real / pairs as real else 0.0
  }

  function Blend(weight: real, normalized: real, ratio: real): real {
    (1.0 - weight) * normalized + weight * ratio
  }

  function Evaluate(query: seq<string>, weight: real, lowest: real, highest: real, c: Candidate): Evaluated {
    var u := Normalized(Raw(c), lowest, highest);
    var matched := Matched(query, c.tokens, Pairs(query));
    var p := Ratio(matched, Pairs(query));
    Evaluated(Blend(weight, u, p), Raw(c), u, matched, p, c)
  }

  function Evaluations(query: seq<string>, weight: real, candidates: seq<Candidate>): seq<Evaluated> {
    if candidates == [] then []
    else
      var lowest, highest := Lowest(Raws(candidates)), Highest(Raws(candidates));
      Map(c => Evaluate(query, weight, lowest, highest, c), candidates)
  }

  /** Higher combined score first, then higher raw score, then smaller id. */
  predicate Before(a: Evaluated, b: Evaluated) {
    a.combined > b.combined
    || (a.combined == b.combined && (a.raw > b.raw || (a.raw == b.raw && StringLe(a.candidate.id, b.candidate.id))))
  }

  function Ranking(query: seq<string>, weight: real, candidates: seq<Candidate>): seq<Evaluated> {
    Sort(Before, Evaluations(query, weight, candidates))
  }

  method EvaluateAll(query: seq<string>, candidates: seq<Candidate>, weight: real) returns (evaluated: seq<Evaluated>)
    requires candidates != []
    ensures evaluated == Evaluations(query, weight, candidates)
  {
    hide Matched, Normalized, Blend, Ratio, Lowest, Highest;
    var raws := Raws(candidates);
    var lowest, highest := Lowest(raws), Highest(raws);
    evaluated := [];
    for k := 0 to |candidates|
      invariant |evaluated| == k
      invariant forall i :: 0 <= i < k ==> evaluated[i] == Evaluate(query, weight, lowest, highest, candidates[i])
    {
      var c := candidates[k];
      var u := Normalized(raws[k], lowest, highest);
      var matched := MatchedPairs(query, c.tokens);
      var p := Ratio(matched, Pairs(query));
      evaluated := evaluated + [Evaluated(Blend(weight, u, p), raws[k], u, matched, p, c)];
    }
  }

  method Rerank(query: seq<string>, candidates: seq<Candidate>, weight: real) returns (results: seq<Ranked>)
    requires 0.0 <= weight <= 1.0
    ensures |results| == |Ranking(query, weight, candidates)|
    ensures forall i :: 0 <= i < |results| ==> results[i] == Ranked(Ranking(query, weight, candidates)[i], Pairs(query), i + 1)
  {
    hide Sort, Evaluations;
    results := [];
    if candidates == [] {
      NothingRanked(query, weight);
      return;
    }
    var evaluated := EvaluateAll(query, candidates, weight);
    var ordered := Sort(Before, evaluated);
    for rank := 0 to |ordered|
      invariant |results| == rank
      invariant forall i :: 0 <= i < rank ==> results[i] == Ranked(ordered[i], Pairs(query), i + 1)
    {
      results := results + [Ranked(ordered[rank], Pairs(query), rank + 1)];
    }
  }

  lemma NothingRanked(query: seq<string>, weight: real)
    ensures Ranking(query, weight, []) == []
  {
  }

  // ---------- what an evaluation says ----------

  /** The places of the query at which a pair of adjacent tokens starts that also stands in the candidate. */
  ghost function FoundPairs(query: seq<string>, tokens: seq<string>, n: nat): set<nat>
    requires n <= Pairs(query)
  {
    set p: nat | p < n && FoundAt(query, tokens, p)
  }

  ghost predicate FoundAt(query: seq<string>, tokens: seq<string>, p: nat) {
    p + 2 <= |query| && Stands(query[p..p + 2], tokens)
  }

  ghost predicate Stands(pair: seq<string>, tokens: seq<string>) {
    exists i: nat :: PairAt(tokens, i, pair)
  }

  predicate PairAt(tokens: seq<string>, i: nat, pair: seq<string>) {
    i + 2 <= |tokens| && tokens[i..i + 2] == pair
  }

  lemma AdjacentStands(tokens: seq<string>, first: string, second: string)
    ensures Adjacent(tokens, first, second) <==> Stands([first, second], tokens)
  {
    if i :| 0 <= i < |tokens| - 1 && tokens[i] == first && tokens[i + 1] == second { assert PairAt(tokens, i, [first, second]); }
    if i: nat :| PairAt(tokens, i, [first, second]) {
      assert tokens[i] == tokens[i..i + 2][0] && tokens[i + 1] == tokens[i..i + 2][1];
    }
  }

  lemma {:induction false} MatchedCounts(query: seq<string>, tokens: seq<string>, n: nat)
    requires n <= Pairs(query)
    ensures Matched(query, tokens, n) == |FoundPairs(query, tokens, n)|
  {
    hide Adjacent, Stands;
    if n == 0 {
      assert FoundPairs(query, tokens, n) == {};
    } else {
      var p: nat := n - 1;
      MatchedCounts(query, tokens, p);
      AdjacentStands(tokens, query[p], query[p + 1]);
      assert query[p..p + 2] == [query[p], query[p + 1]];
      assert FoundPairs(query, tokens, n) == FoundPairs(query, tokens, p) + if FoundAt(query, tokens, p) then {p} else {};
    }
  }

  /** The evaluation states the raw score, its place between the lowest and the highest one, the number and the share of the
      query pairs found, and the point between the two that the weight picks. */
  ghost predicate States(e: Evaluated, c: Candidate, query: seq<string>, weight: real, lowest: real, highest: real) {
    && e.candidate == c
    && (c.bm25.Some? ==> e.raw == c.bm25.value)
    && (c.bm25.None? && c.fusion.Some? ==> e.raw == c.fusion.value)
    && (c.bm25.None? && c.fusion.None? ==> e.raw == 0.0)
    && (if highest == lowest then e.normalized == 0.0 else e.normalized * (highest - lowest) == e.raw - lowest)
    && (if |query| < 2 then e.matched == 0 && e.ratio == 0.0
        else e.matched == |FoundPairs(query, c.tokens, |query| - 1)| && e.ratio * (|query| - 1) as real == e.matched as real)
    && e.combined == e.normalized + weight * (e.ratio - e.normalized)
  }

  /** Every evaluation of a candidate list does, for the extremes of the list. */
  lemma EvaluationMeans(query: seq<string>, weight: real, candidates: seq<Candidate>, i: nat) returns (low: nat, high: nat)
    requires i < |candidates|
    ensures low < |candidates| && high < |candidates| && |Evaluations(query, weight, candidates)| == |candidates|
    ensures forall k :: 0 <= k < |candidates| ==> Raw(candidates[low]) <= Raw(candidates[k]) <= Raw(candidates[high])
    ensures States(Evaluations(query, weight, candidates)[i], candidates[i], query, weight, Raw(candidates[low]), Raw(candidates[high]))
  {
    hide Matched, Lowest, Highest, Evaluate, States, Raw;
    var raws := Raws(candidates);
    low :| 0 <= low < |raws| && raws[low] == Lowest(raws);
    high :| 0 <= high < |raws| && raws[high] == Highest(raws);
    assert forall k :: 0 <= k < |candidates| ==> raws[k] == Raw(candidates[k]);
    EvaluateMeans(query, weight, Lowest(raws), Highest(raws), candidates[i]);
    assert Evaluations(query, weight, candidates)[i] == Evaluate(query, weight, Lowest(raws), Highest(raws), candidates[i]);
  }

  lemma EvaluateMeans(query: seq<string>, weight: real, lowest: real, highest: real, c: Candidate)
    requires lowest <= highest
    ensures States(Evaluate(query, weight, lowest, highest, c), c, query, weight, lowest, highest)
  {
    hide Matched, Blend, FoundPairs, Stands;
    var e := Evaluate(query, weight, lowest, highest, c);
    if |query| >= 2 { MatchedCounts(query, c.tokens, |query| - 1); } else { NoPairsMatched(query, c.tokens); }
    Blends(weight, e.normalized, e.ratio);
  }

  lemma NoPairsMatched(query: seq<string>, tokens: seq<string>)
    ensures Matched(query, tokens, 0) == 0
  {
  }

  lemma Blends(weight: real, u: real, p: real)
    ensures Blend(weight, u, p) == u + weight * (p - u)
  {
  }

  /** Of two candidates with the same raw score, the one with more matched pairs has the higher combined score as soon
      as phrases count at all, and then it is ranked first. */
  lemma MorePairsRankHigher(query: seq<string>, weight: real, candidates: seq<Candidate>, i: nat, j: nat)
    requires i < |candidates| && j < |candidates| && weight > 0.0 && Raw(candidates[i]) == Raw(candidates[j])
    requires Matched(query, candidates[i].tokens, Pairs(query)) > Matched(query, candidates[j].tokens, Pairs(query))
    ensures var e := Evaluations(query, weight, candidates);
            |e| == |candidates| && e[i].combined > e[j].combined && Before(e[i], e[j]) && !Before(e[j], e[i])
  {
    hide Matched, Lowest, Highest, StringLe, Blend;
    MatchedAtMost(query, candidates[i].tokens, Pairs(query));
    var e := Evaluations(query, weight, candidates);
    QuotientCompares(e[i].matched as real, e[j].matched as real, Pairs(query) as real);
    Blends(weight, e[i].normalized, e[i].ratio);
    Blends(weight, e[j].normalized, e[j].ratio);
    PositiveProduct(weight, e[i].ratio - e[j].ratio);
  }

  lemma PositiveProduct(a: real, b: real)
    requires a > 0.0 && b > 0.0
    ensures a * b > 0.0
  {
  }

  // ---------- the order ----------

  lemma BeforeIsTotalOrder()
    ensures TotalOrder(Before)
  {
    StringLeIsTotalOrder();
  }

  /** The ranking holds every evaluated candidate once, in order. */
  lemma RankingIsSortedPermutation(query: seq<string>, weight: real, candidates: seq<Candidate>)
    ensures multiset(Ranking(query, weight, candidates)) == multiset(Evaluations(query, weight, candidates))
    ensures |Ranking(query, weight, candidates)| == |candidates|
    ensures Sorted(Before, Ranking(query, weight, candidates))
  {
    hide Evaluate, Sort, StringLe;
    BeforeIsTotalOrder();
    SortPermutes(Before, Evaluations(query, weight, candidates));
    SortSorts(Before, Evaluations(query, weight, candidates));
  }

  predicate DistinctIds(candidates: seq<Candidate>) {
    forall i, j :: 0 <= i < j < |candidates| ==> candidates[i].id != candidates[j].id
  }

  lemma DistinctIdsSeparate(query: seq<string>, weight: real, candidates: seq<Candidate>)
    requires DistinctIds(candidates)
    ensures Separates(Before, Evaluations(query, weight, candidates))
  {
    hide Matched, Normalized, Blend, Lowest, Highest, StringLe;
    StringLeIsTotalOrder();
    var e := Evaluations(query, weight, candidates);
    forall x, y | x in e && y in e && Before(x, y) && Before(y, x) ensures x == y {
      var i :| 0 <= i < |e| && e[i] == x;
      var j :| 0 <= j < |e| && e[j] == y;
      assert StringLe(x.candidate.id, y.candidate.id) && StringLe(y.candidate.id, x.candidate.id);
      assert candidates[i].id == candidates[j].id;
    }
  }

  lemma {:induction false} SameExtremes(a: seq<real>, b: seq<real>)
    requires a != [] && b != [] && multiset(a) == multiset(b)
    ensures Lowest(a) == Lowest(b) && Highest(a) == Highest(b)
  {
    assert forall x :: x in a <==> x in multiset(a);
    assert forall x :: x in b <==> x in multiset(b);
    assert Lowest(a) in b && Lowest(b) in a && Highest(a) in b && Highest(b) in a;
  }

  /** With distinct ids the ranking does not depend on the order in which the candidates are given. */
  lemma RankingForgetsInputOrder(query: seq<string>, weight: real, a: seq<Candidate>, b: seq<Candidate>)
    requires DistinctIds(a) && multiset(a) == multiset(b)
    ensures Ranking(query, weight, a) == Ranking(query, weight, b)
  {
    hide Evaluate, Sort, Before, Lowest, Highest, Raw, DistinctIds;
    assert |a| == |multiset(a)| == |multiset(b)| == |b|;
    if a != [] {
      MapPermutes(Raw, a, b);
      SameExtremes(Raws(a), Raws(b));
      var lowest, highest := Lowest(Raws(a)), Highest(Raws(a));
      MapPermutes(c => Evaluate(query, weight, lowest, highest, c), a, b);
      DistinctIdsSeparate(query, weight, a);
      BeforeIsTotalOrder();
      SortForgetsOrder(Before, Evaluations(query, weight, a), Evaluations(query, weight, b));
    }
  }

  // ---------- the range of the scores ----------

  lemma QuotientInUnit(x: real, d: real)
    requires 0.0 <= x <= d && d > 0.0
    ensures 0.0 <= x / d <= 1.0
  {
  }

  lemma BlendInUnit(weight: real, u: real, p: real)
    requires 0.0 <= weight <= 1.0 && 0.0 <= u <= 1.0 && 0.0 <= p <= 1.0
    ensures 0.0 <= Blend(weight, u, p) <= 1.0
  {
    hide Blend, Times;
    Product(1.0 - weight, u);
    Product(weight, p);
    BlendIs(weight, u, p);
  }

  function Times(a: real, b: real): real { a * b }

  lemma BlendIs(weight: real, u: real, p: real)
    ensures Blend(weight, u, p) == Times(1.0 - weight, u) + Times(weight, p)
  {
  }

  lemma Product(a: real, b: real)
    requires 0.0 <= a && 0.0 <= b <= 1.0
    ensures 0.0 <= Times(a, b) <= a
  {
    assert a * (1.0 - b) >= 0.0;
  }

  lemma EvaluateInUnit(query: seq<string>, weight: real, lowest: real, highest: real, c: Candidate)
    requires 0.0 <= weight <= 1.0 && lowest <= Raw(c) <= highest
    ensures var e := Evaluate(query, weight, lowest, highest, c);
            0.0 <= e.normalized <= 1.0 && 0.0 <= e.ratio <= 1.0 && 0.0 <= e.combined <= 1.0
  {
    hide Matched, Blend;
    var e := Evaluate(query, weight, lowest, highest, c);
    if highest - lowest > 0.0 { QuotientInUnit(Raw(c) - lowest, highest - lowest); }
    MatchedAtMost(query, c.tokens, Pairs(query));
    if Pairs(query) > 0 { QuotientInUnit(e.matched as real, Pairs(query) as real); }
    BlendInUnit(weight, e.normalized, e.ratio);
  }

  /** Every normalised score, ratio and combined score lies in [0, 1]. */
  lemma ScoresInUnit(query: seq<string>, weight: real, candidates: seq<Candidate>, e: Evaluated)
    requires 0.0 <= weight <= 1.0
    ensures e in Ranking(query, weight, candidates) ==>
              0.0 <= e.normalized <= 1.0 && 0.0 <= e.ratio <= 1.0 && 0.0 <= e.combined <= 1.0
  {
    hide Sort, Evaluate, Raw, Lowest, Highest;
    InSort(Before, Evaluations(query, weight, candidates), e);
    if e in Ranking(query, weight, candidates) {
      var lowest, highest := Lowest(Raws(candidates)), Highest(Raws(candidates));
      var i :| 0 <= i < |candidates| && e == Evaluate(query, weight, lowest, highest, candidates[i]);
      assert lowest <= Raws(candidates)[i] <= highest;
      EvaluateInUnit(query, weight, lowest, highest, candidates[i]);
    }
  }

  // ---------- rescaling BM25 ----------

  function Scaled(x: real, a: real, b: real): real { a * x + b }

  function Rescale(c: Candidate, a: real, b: real): Candidate { c.(bm25 := Some(Scaled(Raw(c), a, b))) }

  function RescaleAll(candidates: seq<Candidate>, a: real, b: real): (r: seq<Candidate>)
    ensures |r| == |candidates| && forall i :: 0 <= i < |r| ==> r[i] == Rescale(candidates[i], a, b)
  {
    Map(c => Rescale(c, a, b), candidates)
  }

  function RescaleEvaluated(e: Evaluated, a: real, b: real): Evaluated {
    e.(raw := Scaled(e.raw, a, b), candidate := Rescale(e.candidate, a, b))
  }

  lemma ScaleCompares(x: real, y: real, a: real, b: real)
    requires a > 0.0
    ensures Scaled(x, a, b) > Scaled(y, a, b) <==> x > y
    ensures Scaled(x, a, b) == Scaled(y, a, b) <==> x == y
  {
    assert a * x - a * y == a * (x - y);
    if x > y { assert a * (x - y) > 0.0; }
    if x < y { assert a * (y - x) > 0.0; }
  }

  lemma ExtremesScale(s: seq<real>, t: seq<real>, a: real, b: real)
    requires a > 0.0 && s != [] && |t| == |s| && forall i :: 0 <= i < |s| ==> t[i] == Scaled(s[i], a, b)
    ensures Lowest(t) == Scaled(Lowest(s), a, b) && Highest(t) == Scaled(Highest(s), a, b)
  {
    hide Lowest, Highest, Scaled;
    var i :| 0 <= i < |s| && s[i] == Lowest(s);
    var j :| 0 <= j < |t| && t[j] == Lowest(t);
    ScaleCompares(s[i], s[j], a, b);
    var k :| 0 <= k < |s| && s[k] == Highest(s);
    var l :| 0 <= l < |t| && t[l] == Highest(t);
    ScaleCompares(s[k], s[l], a, b);
  }

  lemma QuotientScales(x: real, d: real, a: real)
    requires a > 0.0 && d > 0.0
    ensures a * d > 0.0 && (a * x) / (a * d) == x / d
  {
    var q := x / d;
    assert q * d == x;
    assert q * (a * d) == a * x;
  }

  lemma NormalizedScales(raw: real, lowest: real, highest: real, a: real, b: real)
    requires a > 0.0
    ensures Normalized(Scaled(raw, a, b), Scaled(lowest, a, b), Scaled(highest, a, b)) == Normalized(raw, lowest, highest)
  {
    var d, d' := highest - lowest, Scaled(highest, a, b) - Scaled(lowest, a, b);
    assert d' == a * d;
    assert Scaled(raw, a, b) - Scaled(lowest, a, b) == a * (raw - lowest);
    if d > 0.0 { QuotientScales(raw - lowest, d, a); }
    else { assert a * d <= 0.0; }
  }

  lemma RawsScale(candidates: seq<Candidate>, a: real, b: real)
    ensures forall i :: 0 <= i < |candidates| ==> Raws(RescaleAll(candidates, a, b))[i] == Scaled(Raws(candidates)[i], a, b)
  {
    hide Scaled;
    assert forall i :: 0 <= i < |candidates| ==> RescaleAll(candidates, a, b)[i] == Rescale(candidates[i], a, b);
  }

  lemma EvaluateScales(query: seq<string>, weight: real, lowest: real, highest: real, c: Candidate, a: real, b: real)
    requires a > 0.0
    ensures Evaluate(query, weight, Scaled(lowest, a, b), Scaled(highest, a, b), Rescale(c, a, b))
            == RescaleEvaluated(Evaluate(query, weight, lowest, highest, c), a, b)
  {
    hide Normalized, Matched, Blend, Ratio, Scaled;
    NormalizedScales(Raw(c), lowest, highest, a, b);
  }

  lemma EvaluationsScale(query: seq<string>, weight: real, candidates: seq<Candidate>, a: real, b: real)
    requires a > 0.0
    ensures Evaluations(query, weight, RescaleAll(candidates, a, b))
            == Map(e => RescaleEvaluated(e, a, b), Evaluations(query, weight, candidates))
  {
    hide Lowest, Highest, Evaluate, Rescale, RescaleEvaluated, Raws, Scaled;
    if candidates != [] {
      var scaled := RescaleAll(candidates, a, b);
      var lowest, highest := Lowest(Raws(candidates)), Highest(Raws(candidates));
      RawsScale(candidates, a, b);
      ExtremesScale(Raws(candidates), Raws(scaled), a, b);
      forall i | 0 <= i < |candidates|
        ensures Evaluations(query, weight, scaled)[i] == RescaleEvaluated(Evaluations(query, weight, candidates)[i], a, b)
      {
        EvaluateScales(query, weight, lowest, highest, candidates[i], a, b);
      }
    }
  }

  /** Replacing every raw score r by a * r + b with a > 0 changes neither the order nor any combined score. */
  lemma RescalingKeepsTheRanking(query: seq<string>, weight: real, candidates: seq<Candidate>, a: real, b: real)
    requires a > 0.0
    ensures Ranking(query, weight, RescaleAll(candidates, a, b))
            == Map(e => RescaleEvaluated(e, a, b), Ranking(query, weight, candidates))
  {
    hide Sort, Evaluations, Scaled;
    EvaluationsScale(query, weight, candidates, a, b);
    forall x: Evaluated, y: Evaluated ensures Before(RescaleEvaluated(x, a, b), RescaleEvaluated(y, a, b)) == Before(x, y) {
      ScaleCompares(x.raw, y.raw, a, b);
    }
    SortMaps(Before, Before, e => RescaleEvaluated(e, a, b), Evaluations(query, weight, candidates));
  }

  // ---------- no phrase weight ----------

  /** Higher raw score first, then smaller id. */
  predicate ByRaw(a: Evaluated, b: Evaluated) {
    a.raw > b.raw || (a.raw == b.raw && StringLe(a.candidate.id, b.candidate.id))
  }

  lemma NormalizedCompares(x: real, y: real, lowest: real, highest: real)
    requires lowest <= x <= highest && lowest <= y <= highest
    ensures Normalized(x, lowest, highest) > Normalized(y, lowest, highest) <==> x > y
    ensures Normalized(x, lowest, highest) == Normalized(y, lowest, highest) <==> x == y
  {
    var d := highest - lowest;
    if d > 0.0 {
      QuotientCompares(x - lowest, y - lowest, d);
    }
  }

  lemma QuotientCompares(x: real, y: real, d: real)
    requires d > 0.0
    ensures x / d > y / d <==> x > y
    ensures x / d == y / d <==> x == y
  {
    var p, q := x / d, y / d;
    assert p * d == x && q * d == y;
    ScaleCompares(p, q, d, 0.0);
    assert Scaled(p, d, 0.0) == x && Scaled(q, d, 0.0) == y;
  }

  lemma NoWeight(u: real, p: real)
    ensures Blend(0.0, u, p) == u
  {
  }

  /** Without phrase weight the ranking is the BM25 order. */
  lemma NoPhraseWeightIsBm25Order(query: seq<string>, candidates: seq<Candidate>)
    ensures Ranking(query, 0.0, candidates) == Sort(ByRaw, Evaluations(query, 0.0, candidates))
  {
    hide Sort, Matched, Ratio, Blend, Normalized;
    var e := Evaluations(query, 0.0, candidates);
    forall x, y | x in e && y in e ensures Before(x, y) == ByRaw(x, y) {
      var i :| 0 <= i < |e| && e[i] == x;
      var j :| 0 <= j < |e| && e[j] == y;
      var lowest, highest := Lowest(Raws(candidates)), Highest(Raws(candidates));
      assert lowest <= Raws(candidates)[i] <= highest && lowest <= Raws(candidates)[j] <= highest;
      NoWeight(x.normalized, x.ratio);
      NoWeight(y.normalized, y.ratio);
      NormalizedCompares(x.raw, y.raw, lowest, highest);
    }
    SortAgrees(Before, ByRaw, e);
  }
}
