/** The producer of the retrieval metrics and the independent checker of its report. The producer emits one
    exact recall and reciprocal rank per scored case and the exact means; the checker reads the report alone
    and recomputes both means from the per-case values. */
module RetrievalMetrics {
  import opened Wrappers
  import opened Fractions
  import opened Sorting
  import opened CorpusClosure

  datatype ChunkRef = ChunkRef(provenanceId: string, sourceKey: string, ordinal: int)

  /** One acceptable chunk of a case, already split into source key and ordinal; None when it does not split. */
  type GoldKey = Option<(string, int)>

  datatype Case = Case(id: string, applicable: bool, gold: seq<GoldKey>)

  datatype Observation = Observation(caseId: string, success: bool, failureCode: string, provenanceId: string,
                                     sources: seq<SourceBinding>, candidates: seq<ChunkRef>)

  datatype Metric = Recall | Mrr

  datatype Entry =
    | Excluded(id: string, reason: string)
    | Included(id: string, recall: Fraction, reciprocal: Fraction, candidates: nat)
  {
    function Of(m: Metric): Fraction
      requires Included?
    {
      if m == Recall then recall else reciprocal
    }
  }

  datatype Report = Report(entries: seq<Entry>, denominator: nat, means: Option<map<Metric, Fraction>>)

  datatype Error =
    | CaseSetMismatch | ChunkSetMismatch | SourceMismatch | GoldInvalid | GoldMissing
    | DecisionInvalid | DecisionUnavailable | ProjectionInvalid | ReconciliationFailed | DenominatorInvalid

  const ZERO := Fraction(0, 1)

  // ---------- the producer ----------

  function Ids(observations: seq<Observation>): set<string> {
    set i | 0 <= i < |observations| :: observations[i].caseId
  }

  function ByCase(observations: seq<Observation>): map<string, Observation> {
    map id | id in Ids(observations) :: Last(observations, id)
  }

  predicate HasObservation(observations: seq<Observation>, id: string) {
    exists i :: 0 <= i < |observations| && observations[i].caseId == id
  }

  function Last(observations: seq<Observation>, id: string): Observation
    requires HasObservation(observations, id)
    decreases |observations|
  {
    var last := observations[|observations| - 1];
    if last.caseId == id then last
    else
      assert HasObservation(observations[..|observations| - 1], id) by {
        var i :| 0 <= i < |observations| && observations[i].caseId == id;
        assert observations[..|observations| - 1][i].caseId == id;
      }
      Last(observations[..|observations| - 1], id)
  }

  predicate HasCase(cases: seq<Case>, id: string) {
    exists i :: 0 <= i < |cases| && cases[i].id == id
  }

  predicate HasEntry(entries: seq<Entry>, id: string) {
    exists i :: 0 <= i < |entries| && entries[i].id == id
  }

  function GoldOf(c: Case, provenanceId: string): Result<set<ChunkRef>, Error> {
    if None in c.gold then Failure(GoldInvalid)
    else if c.gold == [] then Failure(GoldMissing)
    else Success(set g | g in c.gold && g.Some? :: ChunkRef(provenanceId, g.value.0, g.value.1))
  }

  /** The 1-based rank of the first gold candidate, 0 when there is none. */
  function FirstRank(candidates: seq<ChunkRef>, gold: set<ChunkRef>): (r: nat)
    ensures r <= |candidates|
    ensures r > 0 ==> candidates[r - 1] in gold && forall i :: 0 <= i < r - 1 ==> candidates[i] !in gold
    ensures r == 0 ==> forall i :: 0 <= i < |candidates| ==> candidates[i] !in gold
  {
    if candidates == [] then 0
    else if candidates[0] in gold then 1
    else
      var r := FirstRank(candidates[1..], gold);
      if r == 0 then 0 else r + 1
  }

  function TopK(candidates: seq<ChunkRef>, k: nat): set<ChunkRef> {
    set i | 0 <= i < |candidates| && i < k :: candidates[i]
  }

  function EntryOf(c: Case, o: Observation, b: Binding, k: nat): Result<Entry, Error> {
    if !c.applicable then Success(Excluded(c.id, "RETRIEVAL_RELEVANCE_NOT_APPLICABLE"))
    else if !o.success then Success(Excluded(c.id, o.failureCode))
    else if o.provenanceId != b.provenanceId then Failure(ChunkSetMismatch)
    else if o.sources != b.sources then Failure(SourceMismatch)
    else
      match GoldOf(c, b.provenanceId)
      case Failure(error) => Failure(error)
      case Success(gold) =>
        if exists i :: 0 <= i < |o.candidates| && o.candidates[i].provenanceId != b.provenanceId then Failure(ChunkSetMismatch)
        else if gold == {} then Failure(GoldMissing)
        else
          var rank := FirstRank(o.candidates, gold);
          Success(Included(c.id, Norm(|gold * TopK(o.candidates, k)|, |gold|),
                           if rank == 0 then ZERO else Norm(1, rank), |o.candidates|))
  }

  function Entries(cases: seq<Case>, byCase: map<string, Observation>, b: Binding, k: nat): Result<seq<Entry>, Error>
    requires forall c :: c in cases ==> c.id in byCase
    decreases |cases|
  {
    if cases == [] then Success([])
    else
      var last := cases[|cases| - 1];
      match Entries(cases[..|cases| - 1], byCase, b, k)
      case Failure(error) => Failure(error)
      case Success(entries) =>
        match EntryOf(last, byCase[last.id], b, k)
        case Failure(error) => Failure(error)
        case Success(entry) => Success(entries + [entry])
  }

  function Count(entries: seq<Entry>): nat
    decreases |entries|
  {
    if entries == [] then 0
    else Count(entries[..|entries| - 1]) + (if entries[|entries| - 1].Included? then 1 else 0)
  }

  ghost predicate WellFormed(entries: seq<Entry>) {
    forall e: Entry :: e in entries && e.Included? ==>
      Lowest(e.recall) && e.recall.num <= e.recall.den && Lowest(e.reciprocal) && e.reciprocal.num <= e.reciprocal.den
  }

  predicate Denominated(entries: seq<Entry>, m: Metric) {
    forall e: Entry :: e in entries && e.Included? ==> e.Of(m).den > 0
  }

  /** `sum(values, Fraction(0, 1))` over the included entries, in order. */
  function Total(entries: seq<Entry>, m: Metric): (f: Fraction)
    requires Denominated(entries, m)
    ensures f.den > 0
    decreases |entries|
  {
    if entries == [] then ZERO
    else
      var init, last := entries[..|entries| - 1], entries[|entries| - 1];
      var before := Total(init, m);
      if last.Included? then
        AddValue(before, last.Of(m));
        Add(before, last.Of(m))
      else before
  }

  function ByIds(): (Case, Case) -> bool { (a: Case, b: Case) => StringLe(a.id, b.id) }

  predicate SameCases(cases: seq<Case>, observations: seq<Observation>) {
    |ByCase(observations)| == |observations| && ByCase(observations).Keys == set c | c in cases :: c.id
  }

  function Summary(entries: seq<Entry>): Report
    requires Denominated(entries, Recall) && Denominated(entries, Mrr)
  {
    var n := Count(entries);
    Report(entries, n,
           if n == 0 then None
           else Some(map[Recall := DivideBy(Total(entries, Recall), n), Mrr := DivideBy(Total(entries, Mrr), n)]))
  }

  ghost function Score(cases: seq<Case>, observations: seq<Observation>, b: Binding, k: nat): Result<Report, Error> {
    if !SameCases(cases, observations) then Failure(CaseSetMismatch)
    else
      var sorted := Sort(ByIds(), cases);
      SortedCasesKnown(cases, ByCase(observations));
      match Entries(sorted, ByCase(observations), b, k)
      case Failure(error) => Failure(error)
      case Success(entries) =>
        EntriesWellFormed(sorted, ByCase(observations), b, k);
        Success(Summary(entries))
  }

  lemma SortedCasesKnown(cases: seq<Case>, byCase: map<string, Observation>)
    requires forall c :: c in cases ==> c.id in byCase
    ensures forall c :: c in Sort(ByIds(), cases) ==> c.id in byCase
  {
    forall c | c in Sort(ByIds(), cases) ensures c.id in byCase { InSort(ByIds(), cases, c); }
  }

  /** The scoring loop, with its three accumulators. */
  method ScoreRetrieval(cases: seq<Case>, observations: seq<Observation>, b: Binding, k: nat) returns (r: Result<Report, Error>)
    ensures r == Score(cases, observations, b, k)
  {
    hide Norm, Gcd, EntryOf, Sort, Entries, Total, Count, Last;
    EmptyTotals(ByCase(observations), b, k);
    var byCase := ByCase(observations);
    if |byCase| != |observations| || byCase.Keys != set c | c in cases :: c.id { return Failure(CaseSetMismatch); }
    var sorted := Sort(ByIds(), cases);
    SortedCasesKnown(cases, byCase);
    var recalls, reciprocals := ZERO, ZERO;
    var count := 0;
    var entries: seq<Entry> := [];
    for i := 0 to |sorted|
      invariant Entries(sorted[..i], byCase, b, k) == Success(entries)
      invariant Denominated(entries, Recall) && Denominated(entries, Mrr) && count == Count(entries)
      invariant recalls == Total(entries, Recall) && reciprocals == Total(entries, Mrr)
    {
      var c := sorted[i];
      var entry := EntryOf(c, byCase[c.id], b, k);
      EntryIsLowest(c, byCase[c.id], b, k);
      if entry.Failure? {
        EntriesExtend(sorted, byCase, b, k, i, entries);
        FailureStays(sorted, byCase, b, k, i + 1);
        assert sorted[..|sorted|] == sorted;
        return Failure(entry.error);
      }
      EntriesExtend(sorted, byCase, b, k, i, entries);
      TotalsExtend(entries, entry.value);
      entries := entries + [entry.value];
      if entry.value.Included? {
        count := count + 1;
        recalls := Add(recalls, entry.value.recall);
        reciprocals := Add(reciprocals, entry.value.reciprocal);
      }
    }
    assert sorted[..|sorted|] == sorted;
    AddValue(recalls, ZERO);
    r := Success(Report(entries, count,
                        if count == 0 then None
                        else Some(map[Recall := DivideBy(recalls, count), Mrr := DivideBy(reciprocals, count)])));
  }

  lemma EmptyTotals(byCase: map<string, Observation>, b: Binding, k: nat)
    ensures Entries([], byCase, b, k) == Success([]) && Count([]) == 0 && Total([], Recall) == Total([], Mrr) == ZERO
  {
  }

  lemma EntriesExtend(cases: seq<Case>, byCase: map<string, Observation>, b: Binding, k: nat, i: nat, entries: seq<Entry>)
    requires forall c :: c in cases ==> c.id in byCase
    requires i < |cases| && Entries(cases[..i], byCase, b, k) == Success(entries)
    ensures var r := EntryOf(cases[i], byCase[cases[i].id], b, k);
            Entries(cases[..i + 1], byCase, b, k) == if r.Success? then Success(entries + [r.value]) else Failure(r.error)
  {
    hide EntryOf;
    assert cases[..i + 1][..i] == cases[..i];
  }

  lemma TotalsExtend(entries: seq<Entry>, e: Entry)
    requires Denominated(entries, Recall) && Denominated(entries, Mrr) && Denominated([e], Recall) && Denominated([e], Mrr)
    ensures Denominated(entries + [e], Recall) && Denominated(entries + [e], Mrr)
    ensures Count(entries + [e]) == Count(entries) + (if e.Included? then 1 else 0)
    ensures e.Included? ==> e in [e] && Total(entries + [e], Recall) == Add(Total(entries, Recall), e.recall)
                            && Total(entries + [e], Mrr) == Add(Total(entries, Mrr), e.reciprocal)
    ensures e.Excluded? ==> Total(entries + [e], Recall) == Total(entries, Recall) && Total(entries + [e], Mrr) == Total(entries, Mrr)
  {
    hide Norm;
    assert (entries + [e])[..|entries|] == entries;
    assert e in [e];
  }

  lemma {:induction false} FailureStays(cases: seq<Case>, byCase: map<string, Observation>, b: Binding, k: nat, i: nat)
    requires forall c :: c in cases ==> c.id in byCase
    requires i <= |cases| && Entries(cases[..i], byCase, b, k).Failure?
    ensures Entries(cases, byCase, b, k) == Entries(cases[..i], byCase, b, k)
    decreases |cases|
  {
    if i == |cases| {
      assert cases[..i] == cases;
    } else {
      assert cases[..|cases| - 1][..i] == cases[..i];
      FailureStays(cases[..|cases| - 1], byCase, b, k, i);
    }
  }

  // ---------- every emitted fraction is a proper fraction in lowest terms ----------

  lemma SubsetSize<T>(a: set<T>, b: set<T>)
    requires a <= b
    ensures |a| <= |b|
  {
    assert b == a + (b - a);
  }

  lemma EntryIsLowest(c: Case, o: Observation, b: Binding, k: nat)
    ensures var r := EntryOf(c, o, b, k);
            r.Success? ==>
              r.value.id == c.id && WellFormed([r.value]) && Denominated([r.value], Recall) && Denominated([r.value], Mrr)
    ensures var r := EntryOf(c, o, b, k); r.Success? ==> (r.value.Included? <==> c.applicable && o.success)
  {
    var r := EntryOf(c, o, b, k);
    if r.Success? && r.value.Included? {
      var gold := GoldOf(c, b.provenanceId).value;
      SubsetSize(gold * TopK(o.candidates, k), gold);
      assert |gold| > 0;
      NormIsLowest(|gold * TopK(o.candidates, k)|, |gold|);
      var rank := FirstRank(o.candidates, gold);
      if rank > 0 { NormIsLowest(1, rank); }
      ZeroIsLowest();
    }
  }

  lemma ZeroIsLowest()
    ensures Lowest(ZERO) && Value(ZERO) == 0.0
  {
    assert Gcd(0, 1) == Gcd(1, 0);
  }

  lemma {:induction false} EntriesWellFormed(cases: seq<Case>, byCase: map<string, Observation>, b: Binding, k: nat)
    requires forall c :: c in cases ==> c.id in byCase
    ensures var r := Entries(cases, byCase, b, k);
            r.Success? ==>
              && WellFormed(r.value) && Denominated(r.value, Recall) && Denominated(r.value, Mrr) && |r.value| == |cases|
              && (forall i :: 0 <= i < |cases| ==> r.value[i].id == cases[i].id
                                                   && (r.value[i].Included? <==> cases[i].applicable && byCase[cases[i].id].success))
    decreases |cases|
  {
    if cases != [] {
      var last := cases[|cases| - 1];
      EntriesWellFormed(cases[..|cases| - 1], byCase, b, k);
      EntryIsLowest(last, byCase[last.id], b, k);
    }
  }

  // ---------- the checker ----------

  /** A decision value is accepted only as a proper fraction already in lowest terms. */
  function Rational(num: int, den: int): Result<Fraction, Error> {
    if den <= 0 || num < 0 || num > den || Norm(num, den) != Fraction(num, den) then Failure(DecisionInvalid)
    else Success(Fraction(num, den))
  }

  /** A decision value is read exactly when it is a proper fraction in lowest terms. */
  lemma RationalIff(num: int, den: int)
    ensures Rational(num, den).Success? <==> den > 0 && 0 <= num <= den && Gcd(num, den) == 1
    ensures Rational(num, den).Success? ==> Value(Rational(num, den).value) == num as real / den as real
  {
    if den > 0 && 0 <= num <= den {
      NormIsLowest(num, den);
      if Gcd(num, den) == 1 { LowestUnique(Norm(num, den), Fraction(num, den)); }
    }
  }

  /** The report's cases by id; a later entry replaces an earlier one with the same id. */
  function Cases(entries: seq<Entry>): map<string, Entry> {
    if entries == [] then map[]
    else
      var rest := Cases(entries[1..]);
      if entries[0].id in rest then rest else rest[entries[0].id := entries[0]]
  }

  lemma CasesKeepIds(entries: seq<Entry>)
    ensures forall id :: id in Cases(entries) ==> Cases(entries)[id].id == id
  {
  }

  /** The entries the checker visits, in the order of the expected case ids. */
  function Visited(expected: seq<string>, cases: map<string, Entry>): (v: seq<Entry>)
    requires forall id :: id in expected ==> id in cases
    ensures |v| == |expected| && forall i :: 0 <= i < |expected| ==> v[i] == cases[expected[i]]
  {
    seq(|expected|, i requires 0 <= i < |expected| => cases[expected[i]])
  }

  predicate Accepted(visited: seq<Entry>, observed: set<string>, m: Metric) {
    forall e: Entry :: e in visited && e.Included? ==> e.id in observed && Rational(e.Of(m).num, e.Of(m).den).Success?
  }

  /** Exactly what the checker needs to accept a report's mean. */
  predicate Reproduced(report: Report, observed: set<string>, expected: seq<string>, m: Metric) {
    var cases := Cases(report.entries);
    && cases.Keys == (set id | id in expected) && |cases| == |expected|
    && var visited := Visited(expected, cases);
    && Accepted(visited, observed, m) && Count(visited) > 0
    && report.means.Some? && m in report.means.value
    && Rational(report.means.value[m].num, report.means.value[m].den).Success?
    && report.means.value[m] == DivideBy(Total(visited, m), Count(visited))
    && report.denominator == Count(visited)
  }

  lemma VisitedExtends(visited: seq<Entry>, i: nat, observed: set<string>, m: Metric)
    requires i < |visited| && Accepted(visited[..i], observed, m)
    ensures var e := visited[i];
            && Denominated(visited[..i], m)
            && Count(visited[..i + 1]) == Count(visited[..i]) + (if e.Included? then 1 else 0)
            && (Accepted(visited[..i + 1], observed, m) <==>
                  (e.Included? ==> e.id in observed && Rational(e.Of(m).num, e.Of(m).den).Success?))
            && (Accepted(visited[..i + 1], observed, m) ==>
                  && Denominated(visited[..i + 1], m)
                  && Total(visited[..i + 1], m) == if e.Included? then Add(Total(visited[..i], m), e.Of(m)) else Total(visited[..i], m))
  {
    hide Norm, DivideBy, Value, Gcd, Add, Lowest;
    assert visited[..i + 1][..i] == visited[..i] && visited[..i + 1] == visited[..i] + [visited[i]];
    assert visited[i] in visited[..i + 1];
  }

  lemma EmptyVisit(m: Metric)
    ensures Count([]) == 0 && Total([], m) == ZERO
  {
  }

  method Recompute(report: Report, observed: set<string>, expected: seq<string>, m: Metric) returns (r: Result<Fraction, Error>)
    ensures r.Success? <==> Reproduced(report, observed, expected, m)
    ensures r.Success? ==> r.value == report.means.value[m]
  {
    hide Norm, Gcd, Cases, Total, Count, Value, Lowest;
    var cases := Cases(report.entries);
    CasesKeepIds(report.entries);
    EmptyVisit(m);
    if cases.Keys != (set id | id in expected) || |cases| != |expected| { return Failure(ProjectionInvalid); }
    var sum := ZERO;
    var count := 0;
    ghost var visited := Visited(expected, cases);
    for i := 0 to |expected|
      invariant Accepted(visited[..i], observed, m)
      invariant sum == Total(visited[..i], m) && count == Count(visited[..i])
    {
      var item := cases[expected[i]];
      assert item in visited;
      VisitedExtends(visited, i, observed, m);
      if item.Included? {
        if expected[i] !in observed { return Failure(ProjectionInvalid); }
        var value := Rational(item.Of(m).num, item.Of(m).den);
        if value.Failure? { return Failure(value.error); }
        AddValue(sum, value.value);
        sum, count := Add(sum, value.value), count + 1;
      }
    }
    assert visited[..|expected|] == visited;
    if count == 0 { return Failure(DecisionUnavailable); }
    if report.means.None? || m !in report.means.value { return Failure(DecisionUnavailable); }
    var stated := Rational(report.means.value[m].num, report.means.value[m].den);
    if stated.Failure? { return Failure(stated.error); }
    if stated.value != DivideBy(sum, count) { return Failure(ReconciliationFailed); }
    if report.denominator != count { return Failure(DenominatorInvalid); }
    return Success(stated.value);
  }

  // ---------- values of totals, in any order ----------

  function Share(e: Entry, m: Metric): real
    requires Denominated([e], m)
  {
    assert e in [e];
    if e.Included? then Value(e.Of(m)) else 0.0
  }

  function Sum(entries: seq<Entry>, m: Metric): real
    requires Denominated(entries, m)
  {
    if entries == [] then 0.0
    else
      assert forall e :: e in [entries[0]] ==> e in entries;
      Share(entries[0], m) + Sum(entries[1..], m)
  }

  lemma {:induction false} SumSplit(a: seq<Entry>, b: seq<Entry>, m: Metric)
    requires Denominated(a, m) && Denominated(b, m)
    ensures Denominated(a + b, m) && Sum(a + b, m) == Sum(a, m) + Sum(b, m)
    ensures Count(a + b) == Count(a) + Count(b)
  {
    if a == [] {
      assert a + b == b;
    } else {
      SumSplit(a[1..], b, m);
      assert (a + b)[1..] == a[1..] + b;
      CountFront(a + b);
      CountFront(a);
    }
  }

  lemma {:induction false} CountFront(a: seq<Entry>)
    requires a != []
    ensures Count(a) == (if a[0].Included? then 1 else 0) + Count(a[1..])
    decreases |a|
  {
    if |a| > 1 {
      CountFront(a[..|a| - 1]);
      assert a[..|a| - 1][1..] == a[1..][..|a| - 2];
    }
  }

  lemma {:induction false} TotalValue(entries: seq<Entry>, m: Metric)
    requires Denominated(entries, m)
    ensures Lowest(Total(entries, m)) && Value(Total(entries, m)) == Sum(entries, m)
    decreases |entries|
  {
    ZeroIsLowest();
    if entries != [] {
      var init, last := entries[..|entries| - 1], entries[|entries| - 1];
      assert entries == init + [last];
      TotalValue(init, m);
      SumSplit(init, [last], m);
      assert Sum([last], m) == Share(last, m) + Sum([], m);
      if last.Included? { AddValue(Total(init, m), last.Of(m)); }
    }
  }

  /** A sum of proper fractions is at most their number, so a mean of them is a proper fraction. */
  lemma {:induction false} SumAtMostCount(entries: seq<Entry>, m: Metric)
    requires WellFormed(entries) && Denominated(entries, m)
    ensures Sum(entries, m) <= Count(entries) as real
  {
    if entries != [] {
      CountFront(entries);
      SumAtMostCount(entries[1..], m);
      var e := entries[0];
      if e.Included? { ProperValue(e.Of(m)); }
    }
  }

  lemma ProperValue(f: Fraction)
    requires f.den > 0
    ensures f.num <= f.den <==> Value(f) <= 1.0
  {
    QuotientAtMostOne(f.num as real, f.den as real);
  }

  lemma QuotientAtMostOne(a: real, d: real)
    requires d > 0.0
    ensures a <= d <==> a / d <= 1.0
  {
    var x := a / d;
    assert x * d == a;
    SignOfProduct(x - 1.0, d);
    assert (x - 1.0) * d == a - d;
  }

  lemma SignOfProduct(x: real, d: real)
    requires d > 0.0
    ensures x * d > 0.0 <==> x > 0.0
  {
  }

  lemma MeanIsProper(entries: seq<Entry>, m: Metric)
    requires WellFormed(entries) && Denominated(entries, m) && Count(entries) > 0
    ensures var mean := DivideBy(Total(entries, m), Count(entries));
            Lowest(mean) && mean.num <= mean.den && Rational(mean.num, mean.den) == Success(mean)
  {
    var n := Count(entries);
    TotalValue(entries, m);
    SumAtMostCount(entries, m);
    DivideValue(Total(entries, m), n);
    var mean := DivideBy(Total(entries, m), n);
    var x := Sum(entries, m);
    assert x / n as real <= 1.0 by { AtMostOne(x, n as real); }
    ProperValue(mean);
    LowestAccepted(mean);
  }

  lemma AtMostOne(x: real, n: real)
    requires n > 0.0 && x <= n
    ensures x / n <= 1.0
  {
  }

  lemma LowestAccepted(f: Fraction)
    requires Lowest(f) && f.num <= f.den
    ensures Rational(f.num, f.den) == Success(f)
  {
    NormIsLowest(f.num, f.den);
    LowestUnique(Norm(f.num, f.den), f);
  }

  /** Every emitted fraction, per case and mean, is a proper fraction in lowest terms. */
  lemma EmittedFractionsAreProper(cases: seq<Case>, observations: seq<Observation>, b: Binding, k: nat, m: Metric)
    requires Score(cases, observations, b, k).Success?
    ensures var report := Score(cases, observations, b, k).value;
            && WellFormed(report.entries)
            && (report.denominator > 0 <==> report.means.Some?)
            && (report.means.Some? ==>
                  m in report.means.value && Lowest(report.means.value[m]) && report.means.value[m].num <= report.means.value[m].den)
  {
    var sorted := Sort(ByIds(), cases);
    SortedCasesKnown(cases, ByCase(observations));
    EntriesWellFormed(sorted, ByCase(observations), b, k);
    var report := Score(cases, observations, b, k).value;
    if report.denominator > 0 { MeanIsProper(report.entries, m); }
  }

  /** The gold chunks of a case: the listed ones, in the bound chunk set. */
  ghost predicate IsGold(gold: set<ChunkRef>, c: Case, b: Binding) {
    forall r: ChunkRef :: r in gold <==> r.provenanceId == b.provenanceId && Some((r.sourceKey, r.ordinal)) in c.gold
  }

  /** The entry states the exact share of the gold chunks that stand among the first `k` candidates, and the inverse of
      the rank of the first gold candidate, 0 when there is none. */
  ghost predicate StatesRanks(e: Entry, gold: set<ChunkRef>, candidates: seq<ChunkRef>, k: nat)
    requires e.Included?
  {
    && |gold| > 0 && Lowest(e.recall) && Lowest(e.reciprocal)
    && Value(e.recall) == |set g | g in gold && g in Top(candidates, k)| as real / |gold| as real
    && (e.reciprocal == ZERO <==> forall i :: 0 <= i < |candidates| ==> candidates[i] !in gold)
    && (e.reciprocal != ZERO ==>
          exists r :: 0 < r <= |candidates| && FirstAt(candidates, gold, r) && Value(e.reciprocal) == 1.0 / r as real)
  }

  /** What the report says of a case, given its observation. */
  ghost predicate Describes(e: Entry, c: Case, o: Observation, b: Binding, k: nat) {
    if !c.applicable then e == Excluded(c.id, "RETRIEVAL_RELEVANCE_NOT_APPLICABLE")
    else if !o.success then e == Excluded(c.id, o.failureCode)
    else e.Included? && e.id == c.id && e.candidates == |o.candidates|
         && exists gold :: IsGold(gold, c, b) && StatesRanks(e, gold, o.candidates, k)
  }

  /** The observation belongs to the bound environment, and every listed gold chunk can be read. */
  predicate Usable(c: Case, o: Observation, b: Binding) {
    && o.provenanceId == b.provenanceId && o.sources == b.sources && c.gold != [] && None !in c.gold
    && forall i :: 0 <= i < |o.candidates| ==> o.candidates[i].provenanceId == b.provenanceId
  }

  /** A case gets an entry exactly when it is not scored or its observation is usable, and the entry says what the
      case's own gold chunks and the observed candidates make of it. */
  lemma EntryMeansWhatItSays(c: Case, o: Observation, b: Binding, k: nat)
    ensures EntryOf(c, o, b, k).Success? <==> (c.applicable && o.success ==> Usable(c, o, b))
    ensures EntryOf(c, o, b, k).Success? ==> Describes(EntryOf(c, o, b, k).value, c, o, b, k)
  {
    hide Norm, Gcd, Lowest, FirstRank, StatesRanks;
    if c.applicable && o.success && c.gold != [] && None !in c.gold {
      var gold := GoldOf(c, b.provenanceId).value;
      GoldIs(c, b);
      if Usable(c, o, b) {
        RanksAreStated(gold, c.id, o.candidates, k);
        assert IsGold(gold, c, b);
      }
    }
  }

  lemma GoldIs(c: Case, b: Binding)
    requires c.gold != [] && None !in c.gold
    ensures GoldOf(c, b.provenanceId).Success? && IsGold(GoldOf(c, b.provenanceId).value, c, b)
    ensures GoldOf(c, b.provenanceId).value != {}
  {
    var gold := GoldOf(c, b.provenanceId).value;
    var first := c.gold[0];
    assert first in c.gold && first.Some?;
    assert ChunkRef(b.provenanceId, first.value.0, first.value.1) in gold;
    forall r: ChunkRef ensures r in gold <==> r.provenanceId == b.provenanceId && Some((r.sourceKey, r.ordinal)) in c.gold {
      if r in gold { var g :| g in c.gold && g.Some? && r == ChunkRef(b.provenanceId, g.value.0, g.value.1); }
    }
  }

  lemma RanksAreStated(gold: set<ChunkRef>, id: string, candidates: seq<ChunkRef>, k: nat)
    requires gold != {}
    ensures var rank := FirstRank(candidates, gold);
            StatesRanks(Included(id, Norm(|gold * TopK(candidates, k)|, |gold|), if rank == 0 then ZERO else Norm(1, rank), |candidates|),
                        gold, candidates, k)
  {
    hide Norm, Gcd, Lowest, FirstRank;
    var found := gold * TopK(candidates, k);
    assert found == set g | g in gold && g in Top(candidates, k);
    NormValue(|found|, |gold|);
    NormIsLowest(|found|, |gold|);
    ZeroIsLowest();
    var rank := FirstRank(candidates, gold);
    if rank > 0 {
      NormValue(1, rank);
      NormIsLowest(1, rank);
      InversePositive(rank as real);
      assert FirstAt(candidates, gold, rank);
    }
  }

  /** Why a case stops the scoring. */
  lemma UnusableMeans(c: Case, o: Observation, b: Binding, k: nat)
    requires c.applicable && o.success && !Usable(c, o, b)
    ensures EntryOf(c, o, b, k) == Failure(if o.provenanceId != b.provenanceId then ChunkSetMismatch
                                           else if o.sources != b.sources then SourceMismatch
                                           else if None in c.gold then GoldInvalid
                                           else if |c.gold| == 0 then GoldMissing else ChunkSetMismatch)
  {
    hide Norm, FirstRank;
  }

  lemma InversePositive(x: real)
    requires x > 0.0
    ensures 1.0 / x > 0.0
  {
  }

  function Top(candidates: seq<ChunkRef>, k: nat): seq<ChunkRef> {
    if k < |candidates| then candidates[..k] else candidates
  }

  predicate FirstAt(candidates: seq<ChunkRef>, gold: set<ChunkRef>, r: int) {
    0 < r <= |candidates| && candidates[r - 1] in gold && forall i :: 0 <= i < r - 1 ==> candidates[i] !in gold
  }

  /** The one observation of a case. */
  predicate IsObservationOf(observations: seq<Observation>, o: Observation, id: string) {
    o in observations && o.caseId == id
  }

  predicate OneEach(observations: seq<Observation>) {
    forall i, j :: 0 <= i < j < |observations| ==> observations[i].caseId != observations[j].caseId
  }

  lemma {:induction false} IdsCount(observations: seq<Observation>)
    ensures |Ids(observations)| <= |observations|
    ensures |Ids(observations)| == |observations| <==> OneEach(observations)
    decreases |observations|
  {
    if observations == [] {
      assert Ids(observations) == {};
    } else {
      var init, last := observations[..|observations| - 1], observations[|observations| - 1];
      IdsCount(init);
      IdsLast(init, last);
      assert observations == init + [last];
    }
  }

  lemma IdsLast(init: seq<Observation>, last: Observation)
    ensures Ids(init + [last]) == Ids(init) + {last.caseId}
    ensures OneEach(init + [last]) <==> OneEach(init) && last.caseId !in Ids(init)
  {
    var all := init + [last];
    assert forall i :: 0 <= i < |init| ==> all[i] == init[i];
    assert all[|init|] == last;
    forall id ensures id in Ids(all) <==> id in Ids(init) || id == last.caseId {
      if id in Ids(init) {
        var i :| 0 <= i < |init| && init[i].caseId == id;
        assert all[i].caseId == id;
      }
    }
    forall i | 0 <= i < |init| ensures init[i].caseId in Ids(init) {}
  }

  lemma SameCasesMeans(cases: seq<Case>, observations: seq<Observation>)
    ensures SameCases(cases, observations) <==>
              OneEach(observations) && (forall id :: HasCase(cases, id) <==> HasObservation(observations, id))
  {
    hide Last;
    IdsCount(observations);
    assert ByCase(observations).Keys == Ids(observations);
    assert |ByCase(observations)| == |ByCase(observations).Keys|;
    var ids := set c | c in cases :: c.id;
    forall id ensures id in ids <==> HasCase(cases, id) {
      if id in ids {
        var c :| c in cases && c.id == id;
        var i :| 0 <= i < |cases| && cases[i] == c;
      }
    }
    forall id ensures id in Ids(observations) <==> HasObservation(observations, id) {}
  }

  /** A run is accepted exactly when the observations are one per case and those of the scored cases are usable; the
      report then lists the cases by id, each described by its own observation. */
  lemma ReportMeansWhatItSays(cases: seq<Case>, observations: seq<Observation>, b: Binding, k: nat)
    ensures Score(cases, observations, b, k).Success? <==>
              && OneEach(observations) && (forall id :: HasCase(cases, id) <==> HasObservation(observations, id))
              && (forall c, o :: c in cases && IsObservationOf(observations, o, c.id) && c.applicable && o.success ==> Usable(c, o, b))
    ensures Score(cases, observations, b, k).Success? ==>
              var report, sorted := Score(cases, observations, b, k).value, Sort(ByIds(), cases);
              && |report.entries| == |sorted|
              && forall i, o :: 0 <= i < |sorted| && IsObservationOf(observations, o, sorted[i].id) ==>
                   Describes(report.entries[i], sorted[i], o, b, k)
  {
    hide Sort, Entries, EntryOf, Usable, Describes, SameCases, Summary, Last;
    SameCasesMeans(cases, observations);
    if SameCases(cases, observations) {
      var byCase, sorted := ByCase(observations), Sort(ByIds(), cases);
      KnownCases(cases, observations);
      SortedCasesKnown(cases, byCase);
      EntriesDescribe(sorted, byCase, b, k);
      EntriesWellFormed(sorted, byCase, b, k);
      forall c, o | c in cases && IsObservationOf(observations, o, c.id) ensures byCase[c.id] == o { OnlyObservation(observations, o); }
      forall c ensures c in sorted <==> c in cases { InSort(ByIds(), cases, c); }
      var r := Entries(sorted, byCase, b, k);
      if r.Success? {
        forall c, o | c in cases && IsObservationOf(observations, o, c.id) && c.applicable && o.success ensures Usable(c, o, b) {
          var i :| 0 <= i < |sorted| && sorted[i] == c;
        }
      } else {
        var i :| 0 <= i < |sorted| && sorted[i].applicable && byCase[sorted[i].id].success && !Usable(sorted[i], byCase[sorted[i].id], b);
        LastIs(observations, sorted[i].id);
        ByCaseIsLast(observations, sorted[i].id);
        assert IsObservationOf(observations, byCase[sorted[i].id], sorted[i].id);
      }
      SummaryEntries(r);
    }
  }

  lemma SummaryEntries(r: Result<seq<Entry>, Error>)
    ensures r.Success? && Denominated(r.value, Recall) && Denominated(r.value, Mrr) ==> Summary(r.value).entries == r.value
  {
  }

  lemma ByCaseIsLast(observations: seq<Observation>, id: string)
    requires id in ByCase(observations)
    ensures HasObservation(observations, id) && ByCase(observations)[id] == Last(observations, id)
  {
  }

  lemma KnownCases(cases: seq<Case>, observations: seq<Observation>)
    requires SameCases(cases, observations)
    ensures forall c :: c in cases ==> c.id in ByCase(observations)
  {
    hide Last;
  }

  lemma OnlyObservation(observations: seq<Observation>, o: Observation)
    requires OneEach(observations) && o in observations
    ensures o.caseId in ByCase(observations) && ByCase(observations)[o.caseId] == o
  {
    hide Last;
    var i :| 0 <= i < |observations| && observations[i] == o;
    assert HasObservation(observations, o.caseId);
    LastIs(observations, o.caseId);
  }

  lemma {:induction false} EntriesDescribe(cases: seq<Case>, byCase: map<string, Observation>, b: Binding, k: nat)
    requires forall c :: c in cases ==> c.id in byCase
    ensures Entries(cases, byCase, b, k).Success? <==>
              forall i :: 0 <= i < |cases| ==> cases[i].applicable && byCase[cases[i].id].success ==> Usable(cases[i], byCase[cases[i].id], b)
    ensures Entries(cases, byCase, b, k).Success? ==>
              |Entries(cases, byCase, b, k).value| == |cases|
              && forall i :: 0 <= i < |cases| ==> Describes(Entries(cases, byCase, b, k).value[i], cases[i], byCase[cases[i].id], b, k)
    decreases |cases|
  {
    hide EntryOf, Usable, Describes;
    if cases != [] {
      var init, last := cases[..|cases| - 1], cases[|cases| - 1];
      EntriesDescribe(init, byCase, b, k);
      EntryMeansWhatItSays(last, byCase[last.id], b, k);
      assert cases[|init|] == last && forall i :: 0 <= i < |init| ==> init[i] == cases[i];
      if Entries(init, byCase, b, k).Success? && EntryOf(last, byCase[last.id], b, k).Success? {
        forall i | 0 <= i < |cases| ensures cases[i].applicable && byCase[cases[i].id].success ==> Usable(cases[i], byCase[cases[i].id], b) {
          assert i < |init| ==> init[i] == cases[i];
        }
      } else if Entries(init, byCase, b, k).Failure? {
        var i :| 0 <= i < |init| && init[i].applicable && byCase[init[i].id].success && !Usable(init[i], byCase[init[i].id], b);
        assert cases[i] == init[i];
      }
    }
  }

  /** The emitted means are the averages of the scored entries' values. */
  lemma MeansAreAverages(cases: seq<Case>, observations: seq<Observation>, b: Binding, k: nat, m: Metric)
    ensures Scored(cases, observations, b, k) ==>
              var report := Score(cases, observations, b, k).value;
              && Denominated(report.entries, m) && report.denominator == Count(report.entries)
              && report.means.Some? && m in report.means.value && report.means.value[m].den > 0
              && Value(report.means.value[m]) == Sum(report.entries, m) / report.denominator as real
  {
    hide Entries, Total, Count, Sum, EntryOf, Value, DivideBy;
    if Scored(cases, observations, b, k) {
      var sorted := Sort(ByIds(), cases);
      SortedCasesKnown(cases, ByCase(observations));
      EntriesWellFormed(sorted, ByCase(observations), b, k);
      var report := Score(cases, observations, b, k).value;
      TotalValue(report.entries, m);
      DivideValue(Total(report.entries, m), report.denominator);
    }
  }

  /** The producer accepts the run and at least one case is scored. */
  ghost predicate Scored(cases: seq<Case>, observations: seq<Observation>, b: Binding, k: nat) {
    Score(cases, observations, b, k).Success? && Score(cases, observations, b, k).value.denominator > 0
  }

  // ---------- when the checker reproduces the producer ----------

  /** An included entry that is followed by another entry of its id: the checker reads the later one. */
  predicate Shadowed(entries: seq<Entry>, i: nat) {
    i < |entries| && entries[i].Included? && exists j :: i < j < |entries| && entries[j].id == entries[i].id
  }

  function Shadows(entries: seq<Entry>): nat {
    if entries == [] then 0 else (if Shadowed(entries, 0) then 1 else 0) + Shadows(entries[1..])
  }

  lemma {:induction false} ShadowsCount(entries: seq<Entry>)
    ensures Shadows(entries) == 0 <==> forall i :: 0 <= i < |entries| ==> !Shadowed(entries, i)
  {
    if entries != [] {
      var rest := entries[1..];
      ShadowsCount(rest);
      forall i | 0 <= i < |rest| ensures Shadowed(rest, i) <==> Shadowed(entries, i + 1) {
        if Shadowed(rest, i) {
          var j :| i < j < |rest| && rest[j].id == rest[i].id;
          assert entries[j + 1].id == entries[i + 1].id;
        }
        if Shadowed(entries, i + 1) {
          var j :| i + 1 < j < |entries| && entries[j].id == entries[i + 1].id;
          assert rest[j - 1].id == rest[i].id;
        }
      }
      if forall i :: 0 <= i < |rest| ==> !Shadowed(rest, i) {
        forall i | 0 < i < |entries| ensures !Shadowed(entries, i) { assert !Shadowed(rest, i - 1); }
      } else {
        var i :| 0 <= i < |rest| && Shadowed(rest, i);
        assert Shadowed(entries, i + 1);
      }
    }
  }

  lemma {:induction false} CasesKeys(entries: seq<Entry>)
    ensures forall id :: id in Cases(entries) <==> HasEntry(entries, id)
  {
    if entries != [] {
      CasesKeys(entries[1..]);
      forall id ensures HasEntry(entries, id) <==> entries[0].id == id || HasEntry(entries[1..], id) {
        if HasEntry(entries, id) {
          var i :| 0 <= i < |entries| && entries[i].id == id;
          if i > 0 { assert entries[1..][i - 1].id == id; }
        }
        if HasEntry(entries[1..], id) {
          var i :| 0 <= i < |entries[1..]| && entries[1..][i].id == id;
          assert entries[i + 1].id == id;
        }
      }
    }
  }

  lemma {:induction false} CasesFrom(entries: seq<Entry>)
    ensures forall id :: id in Cases(entries) ==> Cases(entries)[id] in entries
  {
    if entries != [] {
      CasesFrom(entries[1..]);
      assert entries == [entries[0]] + entries[1..];
    }
  }

  /** The checker counts what the producer counts except the shadowed entries; with none, it adds up the same. */
  ghost predicate CountsAgree(entries: seq<Entry>, visited: seq<Entry>, m: Metric)
    requires Denominated(entries, m)
  {
    && Denominated(visited, m)
    && Count(entries) == Count(visited) + Shadows(entries)
    && (Shadows(entries) == 0 ==> Sum(entries, m) == Sum(visited, m))
  }

  lemma {:induction false} CheckerCounts(entries: seq<Entry>, expected: seq<string>, m: Metric)
    requires Denominated(entries, m) && Distinct(expected)
    requires forall id :: id in expected <==> id in Cases(entries)
    ensures CountsAgree(entries, Visited(expected, Cases(entries)), m)
    decreases |entries|
  {
    if entries == [] {
      EmptyExpected(expected);
    } else {
      var e, rest := entries[0], entries[1..];
      CasesKeys(rest);
      CountFront(entries);
      hide Count;
      if e.id in Cases(rest) {
        var j :| 0 <= j < |rest| && rest[j].id == e.id;
        assert entries[j + 1].id == e.id;
        CheckerCounts(rest, expected, m);
      } else {
        forall j | 0 < j < |entries| ensures entries[j].id != e.id { assert rest[j - 1].id == entries[j].id; }
        assert !Shadowed(entries, 0);
        assert e.id in expected;
        var i :| 0 <= i < |expected| && expected[i] == e.id;
        var others := expected[..i] + expected[i + 1..];
        OthersAre(expected, i);
        var cases, cases' := Cases(entries), Cases(rest);
        assert cases == cases'[e.id := e];
        hide Cases, CountsAgree;
        CheckerCounts(rest, others, m);
        Reinsert(entries, Visited(others, cases'), i, m);
        VisitedWithOne(expected, others, cases', e, i);
      }
    }
  }

  lemma EmptyExpected(expected: seq<string>)
    requires Distinct(expected) && forall id :: id !in expected
    ensures expected == []
  {
    DistinctSize(expected);
    assert (set id | id in expected) == {};
  }

  lemma VisitedWithOne(expected: seq<string>, others: seq<string>, cases: map<string, Entry>, e: Entry, i: nat)
    requires i < |expected| && expected[i] == e.id && Distinct(expected) && others == expected[..i] + expected[i + 1..]
    requires forall id :: id in expected ==> id in cases || id == e.id
    requires forall id :: id in others ==> id in cases
    ensures var v := Visited(others, cases);
            Visited(expected, cases[e.id := e]) == v[..i] + [e] + v[i..]
  {
  }

  lemma OthersAre(expected: seq<string>, i: nat)
    requires i < |expected| && Distinct(expected)
    ensures var others := expected[..i] + expected[i + 1..];
            Distinct(others) && forall id :: id in others <==> id in expected && id != expected[i]
  {
    var others := expected[..i] + expected[i + 1..];
    forall id | id in expected && id != expected[i] ensures id in others {
      var j :| 0 <= j < |expected| && expected[j] == id;
      assert others[if j < i then j else j - 1] == id;
    }
  }

  /** Putting an unshadowed first entry back at any place of the checker's list keeps the agreement. */
  lemma Reinsert(entries: seq<Entry>, v: seq<Entry>, i: nat, m: Metric)
    requires entries != [] && Denominated(entries, m) && i <= |v| && !Shadowed(entries, 0)
    requires CountsAgree(entries[1..], v, m)
    ensures CountsAgree(entries, v[..i] + [entries[0]] + v[i..], m)
  {
    var e := entries[0];
    CountFront(entries);
    assert v == v[..i] + v[i..];
    SumSplit(v[..i], v[i..], m);
    SumSplit([e], v[i..], m);
    SumSplit(v[..i], [e] + v[i..], m);
    assert v[..i] + [e] + v[i..] == v[..i] + ([e] + v[i..]);
    assert Sum([e], m) == Share(e, m) + Sum([], m);
    CountFront([e]);
  }

  function ObservedIds(observations: seq<Observation>): set<string> {
    set o | o in observations && o.success :: o.caseId
  }

  /** For any accepted run with at least one scored case, and any order of the expected case ids, the checker
      reproduces the emitted mean if and only if no scored entry is followed by another entry of its case id. */
  lemma ReproducedIffUnshadowed(cases: seq<Case>, observations: seq<Observation>, b: Binding, k: nat,
                                  expected: seq<string>, m: Metric)
    requires Distinct(expected) && forall id :: id in expected <==> HasCase(cases, id)
    ensures Scored(cases, observations, b, k) ==>
              var report := Score(cases, observations, b, k).value;
              (Reproduced(report, ObservedIds(observations), expected, m)
               <==> forall i :: 0 <= i < |report.entries| ==> !Shadowed(report.entries, i))
  {
    hide Score, Summary, Reproduced, Shadowed;
    if Scored(cases, observations, b, k) {
      var report := Score(cases, observations, b, k).value;
      var entries := report.entries;
      EntryIds(cases, observations, b, k);
      EmittedFractionsAreProper(cases, observations, b, k, m);
      SummaryCounts(entries);
      CasesKeys(entries);
      ReproducedFromSummary(entries, ObservedIds(observations), expected, m);
    }
  }

  lemma SummaryCounts(entries: seq<Entry>)
    requires Denominated(entries, Recall) && Denominated(entries, Mrr)
    ensures Summary(entries).denominator == Count(entries)
  {
  }

  lemma ReproducedFromSummary(entries: seq<Entry>, observed: set<string>, expected: seq<string>, m: Metric)
    requires WellFormed(entries) && Denominated(entries, Recall) && Denominated(entries, Mrr) && Count(entries) > 0
    requires Distinct(expected) && forall id :: id in expected <==> id in Cases(entries)
    requires forall e: Entry :: e in entries && e.Included? ==> e.id in observed
    ensures Reproduced(Summary(entries), observed, expected, m)
            <==> forall i :: 0 <= i < |entries| ==> !Shadowed(entries, i)
  {
    hide Reproduced, Shadowed, Shadows, Cases, Norm, Rational, Lowest, DivideBy, Value, Gcd, Add, Count, Total, Sum, Accepted, WellFormed, Distinct;
    ExpectedIsKeys(expected, Cases(entries));
    var visited := Visited(expected, Cases(entries));
    CheckerCounts(entries, expected, m);
    ShadowsCount(entries);
    VisitedAccepted(entries, expected, observed, m);
    MeanIsProper(entries, m);
    AcceptedIsReproduced(Summary(entries), observed, expected, m);
    if Shadows(entries) == 0 {
      SameTotals(entries, visited, m);
    }
  }

  lemma VisitedAccepted(entries: seq<Entry>, expected: seq<string>, observed: set<string>, m: Metric)
    requires WellFormed(entries) && forall id :: id in expected ==> id in Cases(entries)
    requires forall e: Entry :: e in entries && e.Included? ==> e.id in observed
    ensures Accepted(Visited(expected, Cases(entries)), observed, m)
  {
    CasesFrom(entries);
    var visited := Visited(expected, Cases(entries));
    forall e: Entry | e in visited && e.Included?
      ensures e.id in observed && Rational(e.Of(m).num, e.Of(m).den).Success?
    {
      assert e in entries;
      LowestAccepted(e.Of(m));
    }
  }

  lemma AcceptedIsReproduced(report: Report, observed: set<string>, expected: seq<string>, m: Metric)
    requires var cases := Cases(report.entries); cases.Keys == (set id | id in expected) && |cases| == |expected|
    requires Accepted(Visited(expected, Cases(report.entries)), observed, m)
    requires report.means.Some? && m in report.means.value
    requires Rational(report.means.value[m].num, report.means.value[m].den).Success?
    ensures var visited := Visited(expected, Cases(report.entries));
            Reproduced(report, observed, expected, m)
            <==> Denominated(visited, m) && Count(visited) > 0
                 && report.means.value[m] == DivideBy(Total(visited, m), Count(visited))
                 && report.denominator == Count(visited)
  {
    hide Cases, Norm, DivideBy, Value, Gcd, Add, Lowest, Count, Total;
  }

  lemma SameTotals(a: seq<Entry>, b: seq<Entry>, m: Metric)
    requires Denominated(a, m) && Denominated(b, m) && Sum(a, m) == Sum(b, m)
    ensures Total(a, m) == Total(b, m)
  {
    TotalValue(a, m);
    TotalValue(b, m);
    ValueDetermines(Total(a, m), Total(b, m));
  }

  lemma ExpectedIsKeys(expected: seq<string>, cases: map<string, Entry>)
    requires Distinct(expected) && forall id :: id in expected <==> id in cases
    ensures cases.Keys == (set id | id in expected) && |cases| == |expected|
  {
    DistinctSize(expected);
    assert cases.Keys == (set id | id in expected);
  }

  lemma {:induction false} DistinctSize(ids: seq<string>)
    requires Distinct(ids)
    ensures |set id | id in ids| == |ids|
  {
    if ids != [] {
      DistinctSize(ids[1..]);
      assert (set id | id in ids) == {ids[0]} + set id | id in ids[1..];
    }
  }

  lemma SortedIds(cases: seq<Case>, entries: seq<Entry>)
    requires var sorted := Sort(ByIds(), cases);
             |entries| == |sorted| && forall i :: 0 <= i < |sorted| ==> entries[i].id == sorted[i].id
    ensures forall id :: HasEntry(entries, id) <==> HasCase(cases, id)
  {
    hide Sort;
    var sorted := Sort(ByIds(), cases);
    forall id ensures HasEntry(entries, id) <==> HasCase(cases, id) {
      if HasEntry(entries, id) {
        var i :| 0 <= i < |entries| && entries[i].id == id;
        InSort(ByIds(), cases, sorted[i]);
        assert sorted[i] in cases;
      }
      if HasCase(cases, id) {
        var j :| 0 <= j < |cases| && cases[j].id == id;
        InSort(ByIds(), cases, cases[j]);
        var i :| 0 <= i < |sorted| && sorted[i] == cases[j];
        assert entries[i].id == id;
      }
    }
  }

  /** The producer's entries name the given cases and no others, and only successful observations are scored. */
  lemma EntryIds(cases: seq<Case>, observations: seq<Observation>, b: Binding, k: nat)
    requires Score(cases, observations, b, k).Success?
    ensures var report := Score(cases, observations, b, k).value;
            && (forall id :: HasEntry(report.entries, id) <==> HasCase(cases, id))
            && (forall e: Entry :: e in report.entries && e.Included? ==> e.id in ObservedIds(observations))
            && Denominated(report.entries, Recall) && Denominated(report.entries, Mrr) && report == Summary(report.entries)
  {
    var byCase, sorted := ByCase(observations), Sort(ByIds(), cases);
    SortedCasesKnown(cases, byCase);
    EntriesWellFormed(sorted, byCase, b, k);
    var entries := Score(cases, observations, b, k).value.entries;
    hide Score, Entries, Sort;
    SortedIds(cases, entries);
    forall e: Entry | e in entries && e.Included? ensures e.id in ObservedIds(observations) {
      var i :| 0 <= i < |entries| && entries[i] == e;
      var id := sorted[i].id;
      assert id in byCase && byCase[id] == Last(observations, id);
      LastIs(observations, id);
    }
  }

  lemma {:induction false} LastIs(observations: seq<Observation>, id: string)
    requires HasObservation(observations, id)
    ensures Last(observations, id) in observations && Last(observations, id).caseId == id
    decreases |observations|
  {
    var init, last := observations[..|observations| - 1], observations[|observations| - 1];
    if last.caseId != id {
      var i :| 0 <= i < |observations| && observations[i].caseId == id;
      assert init[i].caseId == id;
      LastIs(init, id);
    }
  }

  // ---------- the same condition on the inputs ----------

  /** A case that will be scored is followed by another case of its id. */
  predicate ScoredCaseRepeats(cases: seq<Case>, observations: seq<Observation>) {
    exists i, j :: 0 <= i < j < |cases| && Repeats(cases, i, j) && cases[i].id in ObservedIds(observations)
  }

  /** Two cases of one id, the earlier of them applicable. */
  predicate Repeats(cases: seq<Case>, i: int, j: int) {
    0 <= i < j < |cases| && cases[i].id == cases[j].id && cases[i].applicable
  }

  predicate RepeatsId(cases: seq<Case>, id: string) {
    exists i, j :: 0 <= i < j < |cases| && Repeats(cases, i, j) && cases[i].id == id
  }

  predicate HasApplicable(cases: seq<Case>, id: string) {
    exists i :: 0 <= i < |cases| && cases[i].id == id && cases[i].applicable
  }

  lemma RepeatsLast(cases: seq<Case>, c: Case, id: string)
    ensures RepeatsId(cases + [c], id) <==> RepeatsId(cases, id) || (c.id == id && HasApplicable(cases, id))
    ensures HasApplicable(cases + [c], id) <==> HasApplicable(cases, id) || (c.id == id && c.applicable)
  {
    var all := cases + [c];
    if i, j :| 0 <= i < j < |cases| && Repeats(cases, i, j) && cases[i].id == id { assert Repeats(all, i, j) && all[i].id == id; }
    if i :| 0 <= i < |cases| && cases[i].id == id && cases[i].applicable {
      assert all[i].id == id && all[i].applicable;
      assert c.id == id ==> Repeats(all, i, |cases|);
    }
    assert all[|cases|] == c;
    if i, j :| 0 <= i < j < |all| && Repeats(all, i, j) && all[i].id == id {
      assert cases[i] == all[i];
      if j < |cases| { assert Repeats(cases, i, j); }
    }
    if i :| 0 <= i < |all| && all[i].id == id && all[i].applicable { assert i < |cases| ==> cases[i] == all[i]; }
  }

  function OfId(id: string): Case -> bool { (c: Case) => c.id == id }

  /** Whether an id repeats can be read off the cases of that id alone. */
  lemma {:induction false} RepeatsOfClass(cases: seq<Case>, id: string)
    ensures RepeatsId(cases, id) <==> RepeatsId(Filter(OfId(id), cases), id)
    ensures HasApplicable(cases, id) <==> HasApplicable(Filter(OfId(id), cases), id)
    decreases |cases|
  {
    hide RepeatsId, HasApplicable;
    if cases != [] {
      var init, c := cases[..|cases| - 1], cases[|cases| - 1];
      RepeatsOfClass(init, id);
      assert cases == init + [c];
      RepeatsLast(init, c, id);
      FilterLast(OfId(id), init, c);
      RepeatsLast(Filter(OfId(id), init), c, id);
      assert Filter(OfId(id), init) + [] == Filter(OfId(id), init);
    }
  }

  /** Sorting by id keeps the order of cases of one id, so it neither makes nor removes repetitions. */
  lemma SortKeepsRepeats(cases: seq<Case>, id: string)
    ensures RepeatsId(Sort(ByIds(), cases), id) <==> RepeatsId(cases, id)
  {
    hide Sort, Filter, RepeatsId, HasApplicable;
    forall a, b | OfId(id)(a) && OfId(id)(b) ensures ByIds()(a, b) { StringLeTotal(a.id, b.id); }
    SortIsStable(ByIds(), OfId(id), cases);
    RepeatsOfClass(cases, id);
    RepeatsOfClass(Sort(ByIds(), cases), id);
  }

  /** The observation the producer takes for a case is successful exactly when some observation of it is. */
  lemma SuccessIsObserved(cases: seq<Case>, observations: seq<Observation>, id: string)
    requires SameCases(cases, observations) && HasObservation(observations, id)
    ensures Last(observations, id).success <==> id in ObservedIds(observations)
  {
    LastIs(observations, id);
    IdsCount(observations);
    assert |Ids(observations)| == |ByCase(observations)| by { assert ByCase(observations).Keys == Ids(observations); }
    var i :| 0 <= i < |observations| && observations[i] == Last(observations, id);
    if id in ObservedIds(observations) {
      var o :| o in observations && o.success && o.caseId == id;
      var j :| 0 <= j < |observations| && observations[j] == o;
      assert i == j;
    }
  }

  lemma ShadowedIsRepeated(cases: seq<Case>, observations: seq<Observation>, b: Binding, k: nat)
    requires Score(cases, observations, b, k).Success?
    ensures var entries := Score(cases, observations, b, k).value.entries;
            (exists i :: 0 <= i < |entries| && Shadowed(entries, i)) <==> ScoredCaseRepeats(Sort(ByIds(), cases), observations)
  {
    var byCase, sorted := ByCase(observations), Sort(ByIds(), cases);
    SortedCasesKnown(cases, byCase);
    EntriesWellFormed(sorted, byCase, b, k);
    var entries := Score(cases, observations, b, k).value.entries;
    hide Score, Entries, Sort, Last;
    forall i | 0 <= i < |entries|
      ensures entries[i].id == sorted[i].id
      ensures entries[i].Included? <==> sorted[i].applicable && sorted[i].id in ObservedIds(observations)
    {
      assert sorted[i] in sorted && byCase[sorted[i].id] == Last(observations, sorted[i].id);
      KnownIsObserved(observations, sorted[i].id);
      SuccessIsObserved(cases, observations, sorted[i].id);
    }
    hide SameCases, ByCase;
    if i :| 0 <= i < |entries| && Shadowed(entries, i) {
      var j :| i < j < |entries| && entries[j].id == entries[i].id;
      assert Repeats(sorted, i, j);
    }
    if i, j :| 0 <= i < j < |sorted| && Repeats(sorted, i, j) && sorted[i].id in ObservedIds(observations) {
      assert entries[j].id == entries[i].id;
      assert Shadowed(entries, i);
    }
  }

  lemma KnownIsObserved(observations: seq<Observation>, id: string)
    ensures id in ByCase(observations) ==> HasObservation(observations, id)
  {
  }

  lemma RepeatsScored(cases: seq<Case>, observations: seq<Observation>)
    ensures ScoredCaseRepeats(cases, observations) <==> exists id :: RepeatsId(cases, id) && id in ObservedIds(observations)
  {
    hide ObservedIds;
    if i, j :| 0 <= i < j < |cases| && Repeats(cases, i, j) && cases[i].id in ObservedIds(observations) {
      assert RepeatsId(cases, cases[i].id);
    }
  }

  /** For any cases and observations the producer accepts with at least one scored case, and any order of the
      expected case ids, the checker's recomputation succeeds, and returns exactly the emitted mean, if and only
      if no applicable case with a successful observation is followed by another case of its id. */
  lemma CheckerReproducesTheMeans(cases: seq<Case>, observations: seq<Observation>, b: Binding, k: nat,
                                  expected: seq<string>, m: Metric)
    requires Distinct(expected) && forall id :: id in expected <==> HasCase(cases, id)
    ensures Scored(cases, observations, b, k) ==>
              (Reproduced(Score(cases, observations, b, k).value, ObservedIds(observations), expected, m)
               <==> !ScoredCaseRepeats(cases, observations))
  {
    hide Score, Reproduced, Shadowed, ScoredCaseRepeats, Sort, RepeatsId, ObservedIds;
    if Scored(cases, observations, b, k) {
      ReproducedIffUnshadowed(cases, observations, b, k, expected, m);
      ShadowedIsRepeated(cases, observations, b, k);
      RepeatsScored(cases, observations);
      RepeatsScored(Sort(ByIds(), cases), observations);
      forall id ensures RepeatsId(Sort(ByIds(), cases), id) <==> RepeatsId(cases, id) { SortKeepsRepeats(cases, id); }
    }
  }

  /** With distinct case ids every accepted run is reproduced. */
  lemma DistinctCasesAreReproduced(cases: seq<Case>, observations: seq<Observation>, b: Binding, k: nat,
                                   expected: seq<string>, m: Metric)
    requires Distinct(expected) && forall id :: id in expected <==> HasCase(cases, id)
    requires forall i, j :: 0 <= i < j < |cases| ==> cases[i].id != cases[j].id
    ensures Scored(cases, observations, b, k) ==>
              Reproduced(Score(cases, observations, b, k).value, ObservedIds(observations), expected, m)
  {
    hide Score, Reproduced;
    CheckerReproducesTheMeans(cases, observations, b, k, expected, m);
  }

  /** The producer accepts a repeated case id; the checker rejects the report whenever that case is scored. */
  lemma RepeatedCaseIsNotReproduced(c: Case, o: Observation, b: Binding, k: nat, m: Metric)
    requires o.caseId == c.id && EntryOf(c, o, b, k).Success? && EntryOf(c, o, b, k).value.Included?
    ensures var score := Score([c, c], [o], b, k);
            score.Success? && score.value.denominator == 2 && !Reproduced(score.value, ObservedIds([o]), [c.id], m)
  {
    hide EntryOf, Reproduced, StringLe, Sort, Entries, Norm, DivideBy, Value, Gcd, Add, Lowest, Count, Total, Shadowed;
    var e := EntryOf(c, o, b, k).value;
    var byCase, entries := ByCase([o]), [e, e];
    assert Ids([o]) == {c.id} by { assert [o][0].caseId == c.id; }
    assert byCase == map[c.id := o];
    assert (set x | x in [c, c] :: x.id) == {c.id} by { assert c in [c, c]; }
    SortedPair(c);
    PairEntries(c, byCase, b, k);
    EntriesWellFormed([c, c], byCase, b, k);
    assert Count(entries) == 2 by { CountFront(entries); CountFront([e]); EmptyVisit(m); }
    assert Score([c, c], [o], b, k) == Success(Summary(entries));
    hide Score, Summary, Ids, ByCase;
    assert Shadowed(entries, 0) by { RepeatShadows(e); }
    forall id ensures id in [c.id] <==> HasCase([c, c], id) { assert [c, c][0].id == c.id; }
    ReproducedIffUnshadowed([c, c], [o], b, k, [c.id], m);
  }

  lemma RepeatShadows(e: Entry)
    requires e.Included?
    ensures Shadowed([e, e], 0)
  {
    assert [e, e][1].id == [e, e][0].id;
  }

  lemma SortedPair(c: Case)
    ensures Sort(ByIds(), [c, c]) == [c, c]
  {
    assert [c, c][..1] == [c] && [c][..0] == [];
    StringLeTotal(c.id, c.id);
    assert Sort(ByIds(), [c]) == [c];
  }

  lemma PairEntries(c: Case, byCase: map<string, Observation>, b: Binding, k: nat)
    requires c.id in byCase && EntryOf(c, byCase[c.id], b, k).Success?
    ensures var e := EntryOf(c, byCase[c.id], b, k).value; Entries([c, c], byCase, b, k) == Success([e, e])
  {
    var e := EntryOf(c, byCase[c.id], b, k).value;
    EmptyTotals(byCase, b, k);
    hide EntryOf, Entries;
    assert [c, c][..0] == [] && [c, c][..1] == [c] && [c, c][..2] == [c, c];
    EntriesExtend([c, c], byCase, b, k, 0, []);
    assert [] + [e] == [e] && [e] + [e] == [e, e];
    EntriesExtend([c, c], byCase, b, k, 1, [e]);
  }

  /** A concrete repeated case of this kind. */
  lemma ARepeatedCase()
    ensures var c := Case("c1", true, [Some(("doc", 0))]);
            var o := Observation("c1", true, "", "p", [], [ChunkRef("p", "doc", 0)]);
            var score := Score([c, c], [o], Binding("w", "m", "p", []), 5);
            score.Success? && !Reproduced(score.value, ObservedIds([o]), ["c1"], Recall)
  {
    var c := Case("c1", true, [Some(("doc", 0))]);
    var hit := ChunkRef("p", "doc", 0);
    var o := Observation("c1", true, "", "p", [], [hit]);
    var b := Binding("w", "m", "p", []);
    assert GoldOf(c, "p").value == {hit} by { assert Some(("doc", 0)) in c.gold; }
    RepeatedCaseIsNotReproduced(c, o, b, 5, Recall);
  }
}
