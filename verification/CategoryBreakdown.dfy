/** The checker of a report's category breakdown: every category and the aggregate are compared with figures
    recomputed from the per-case observations. No line compares the aggregate with the categories; that they
    add up is a consequence proved here. */
module CategoryBreakdown {
  import opened Wrappers
  import opened Sorting
  import Fractions
  import RetrievalMetrics

  /** `included` is None when the field is not a boolean. */
  datatype RetrievalCase = RetrievalCase(included: Option<bool>, notApplicable: bool, decisions: map<string, (int, int)>)

  datatype Observed = Observed(status: string, decision: string, flags: map<string, bool>)

  datatype Report = Report(observations: map<string, Observed>, retrieval: map<string, RetrievalCase>)

  datatype Record = Record(applicable: int, inapplicable: int, failures: int, numerator: real, denominator: int, value: Option<real>)

  datatype Category = Category(name: string, caseCount: int, caseIds: seq<string>, metrics: map<string, Record>)

  datatype Error = Invalid | CaseSetMismatch | ReconciliationFailed

  const ALL_CATEGORIES := {"lexical_exact_match", "semantic_paraphrase", "multi_source", "insufficient_evidence_refusal"}

  // ---------- one case's contribution ----------

  datatype Unit = Rejected | Inapplicable | Failed | Scored(value: real)

  function Classify(report: Report, id: string, metric: string, retrievalMetrics: set<string>): Unit {
    if id !in report.observations then Rejected
    else
      var o := report.observations[id];
      var failed := o.status in {"failure", "observation_failure"};
      if metric in retrievalMetrics then
        if id !in report.retrieval then Rejected
        else
          var c := report.retrieval[id];
          if c.included == Some(false) && c.notApplicable then Inapplicable
          else if c.included.None? then Rejected
          else if failed then Failed
          else if c.included != Some(true) || metric !in c.decisions then Rejected
          else
            var decision := RetrievalMetrics.Rational(c.decisions[metric].0, c.decisions[metric].1);
            if decision.Failure? then Rejected else Scored(Fractions.Value(decision.value))
      else if metric == "semantic_citation_correctness" && o.decision == "REFUSAL" then Inapplicable
      else if failed then Failed
      else if metric !in o.flags then Rejected
      else Scored(if o.flags[metric] then 1.0 else 0.0)
  }

  // ---------- figures that add up ----------

  datatype Totals = Totals(applicable: int, inapplicable: int, failures: int, numerator: real, denominator: int)

  const NOTHING := Totals(0, 0, 0, 0.0, 0)

  function Plus(a: Totals, b: Totals): Totals {
    Totals(a.applicable + b.applicable, a.inapplicable + b.inapplicable, a.failures + b.failures,
           a.numerator + b.numerator, a.denominator + b.denominator)
  }

  function One(u: Unit): Totals {
    match u
    case Rejected => NOTHING
    case Inapplicable => Totals(0, 1, 0, 0.0, 0)
    case Failed => Totals(1, 0, 1, 0.0, 0)
    case Scored(value) => Totals(1, 0, 0, value, 1)
  }

  function Tally(report: Report, ids: seq<string>, metric: string, retrievalMetrics: set<string>): Totals
    decreases |ids|
  {
    if ids == [] then NOTHING
    else Plus(Tally(report, ids[..|ids| - 1], metric, retrievalMetrics),
              One(Classify(report, ids[|ids| - 1], metric, retrievalMetrics)))
  }

  predicate AllUsable(report: Report, ids: seq<string>, metric: string, retrievalMetrics: set<string>) {
    forall i :: 0 <= i < |ids| ==> Classify(report, ids[i], metric, retrievalMetrics) != Rejected
  }

  function RecordOf(t: Totals): Record {
    Record(t.applicable, t.inapplicable, t.failures, t.numerator, t.denominator,
           if t.denominator == 0 then None else Some(t.numerator / t.denominator as real))
  }

  function TotalsOf(r: Record): Totals {
    Totals(r.applicable, r.inapplicable, r.failures, r.numerator, r.denominator)
  }

  lemma TallyEmpty(report: Report, metric: string, retrievalMetrics: set<string>)
    ensures Tally(report, [], metric, retrievalMetrics) == NOTHING
  {
  }

  lemma TallyExtends(report: Report, ids: seq<string>, i: nat, metric: string, retrievalMetrics: set<string>)
    requires i < |ids|
    ensures Tally(report, ids[..i + 1], metric, retrievalMetrics)
            == Plus(Tally(report, ids[..i], metric, retrievalMetrics), One(Classify(report, ids[i], metric, retrievalMetrics)))
  {
    hide Classify;
    assert ids[..i + 1][..i] == ids[..i];
  }

  // ---------- the figures, read off the report's fields ----------

  function CountIf(ids: seq<string>, p: string -> bool): nat
    decreases |ids|
  {
    if ids == [] then 0 else CountIf(ids[..|ids| - 1], p) + if p(ids[|ids| - 1]) then 1 else 0
  }

  function SumIf(ids: seq<string>, p: string -> bool, value: string -> real): real
    decreases |ids|
  {
    if ids == [] then 0.0
    else SumIf(ids[..|ids| - 1], p, value) + if p(ids[|ids| - 1]) then value(ids[|ids| - 1]) else 0.0
  }

  /** The metric says nothing about the case: a retrieval metric about a case excluded as not applicable, the semantic
      citation metric about a refusal. */
  predicate NotApplicable(report: Report, id: string, metric: string, retrievalMetrics: set<string>) {
    if metric in retrievalMetrics then
      id in report.retrieval && report.retrieval[id].included == Some(false) && report.retrieval[id].notApplicable
    else metric == "semantic_citation_correctness" && id in report.observations && report.observations[id].decision == "REFUSAL"
  }

  predicate FailedCase(report: Report, id: string) {
    id in report.observations
    && (report.observations[id].status == "failure" || report.observations[id].status == "observation_failure")
  }

  /** A proper fraction in lowest terms. */
  predicate ProperDecision(decision: (int, int)) {
    decision.1 > 0 && 0 <= decision.0 <= decision.1 && Fractions.Gcd(decision.0, decision.1) == 1
  }

  /** What the case must hold for the metric to be counted. */
  predicate Countable(report: Report, id: string, metric: string, retrievalMetrics: set<string>) {
    id in report.observations
    && if metric in retrievalMetrics then
         id in report.retrieval
         && (NotApplicable(report, id, metric, retrievalMetrics)
             || (report.retrieval[id].included.Some?
                 && (FailedCase(report, id)
                     || (report.retrieval[id].included == Some(true) && metric in report.retrieval[id].decisions
                         && ProperDecision(report.retrieval[id].decisions[metric])))))
       else NotApplicable(report, id, metric, retrievalMetrics) || FailedCase(report, id) || metric in report.observations[id].flags
  }

  predicate CountsFailure(report: Report, id: string, metric: string, retrievalMetrics: set<string>) {
    !NotApplicable(report, id, metric, retrievalMetrics) && FailedCase(report, id)
  }

  predicate CountsScore(report: Report, id: string, metric: string, retrievalMetrics: set<string>) {
    !NotApplicable(report, id, metric, retrievalMetrics) && !FailedCase(report, id)
  }

  /** The decision value of a retrieval metric; 1 for a true flag of any other metric. */
  function Score(report: Report, id: string, metric: string, retrievalMetrics: set<string>): real {
    if metric in retrievalMetrics then
      if id in report.retrieval && metric in report.retrieval[id].decisions && report.retrieval[id].decisions[metric].1 > 0 then
        report.retrieval[id].decisions[metric].0 as real / report.retrieval[id].decisions[metric].1 as real
      else 0.0
    else if id in report.observations && metric in report.observations[id].flags && report.observations[id].flags[metric] then 1.0
    else 0.0
  }

  /** The record that the report's own fields give. */
  function Recount(report: Report, ids: seq<string>, metric: string, retrievalMetrics: set<string>): Record {
    var failures := CountIf(ids, id => CountsFailure(report, id, metric, retrievalMetrics));
    var denominator := CountIf(ids, id => CountsScore(report, id, metric, retrievalMetrics));
    var numerator := SumIf(ids, id => CountsScore(report, id, metric, retrievalMetrics), id => Score(report, id, metric, retrievalMetrics));
    Record(failures + denominator, CountIf(ids, id => NotApplicable(report, id, metric, retrievalMetrics)), failures, numerator, denominator,
           if denominator == 0 then None else Some(numerator / denominator as real))
  }

  lemma UnitMeans(report: Report, id: string, metric: string, retrievalMetrics: set<string>)
    ensures var u := Classify(report, id, metric, retrievalMetrics);
            && (u == Rejected <==> !Countable(report, id, metric, retrievalMetrics))
            && (u != Rejected ==>
                  && (u == Inapplicable <==> NotApplicable(report, id, metric, retrievalMetrics))
                  && (u == Failed <==> CountsFailure(report, id, metric, retrievalMetrics))
                  && (u.Scored? <==> CountsScore(report, id, metric, retrievalMetrics))
                  && (u.Scored? ==> u.value == Score(report, id, metric, retrievalMetrics)))
  {
    hide Fractions.Gcd, Fractions.Value, RetrievalMetrics.Rational;
    if id in report.retrieval && metric in report.retrieval[id].decisions {
      var decision := report.retrieval[id].decisions[metric];
      RetrievalMetrics.RationalIff(decision.0, decision.1);
    }
  }

  lemma {:induction false} TallyIsRecount(report: Report, ids: seq<string>, metric: string, retrievalMetrics: set<string>)
    ensures AllUsable(report, ids, metric, retrievalMetrics) <==> forall i :: 0 <= i < |ids| ==> Countable(report, ids[i], metric, retrievalMetrics)
    ensures AllUsable(report, ids, metric, retrievalMetrics) ==>
              RecordOf(Tally(report, ids, metric, retrievalMetrics)) == Recount(report, ids, metric, retrievalMetrics)
    decreases |ids|
  {
    hide Classify, Countable, NotApplicable, CountsFailure, CountsScore, Score;
    if ids != [] {
      var init, last := ids[..|ids| - 1], ids[|ids| - 1];
      TallyIsRecount(report, init, metric, retrievalMetrics);
      UnitMeans(report, last, metric, retrievalMetrics);
      assert ids == init + [last];
      UnitsDiffer(report, last, metric, retrievalMetrics);
    }
  }

  lemma UnitsDiffer(report: Report, id: string, metric: string, retrievalMetrics: set<string>)
    ensures !(NotApplicable(report, id, metric, retrievalMetrics) && CountsFailure(report, id, metric, retrievalMetrics))
    ensures CountsScore(report, id, metric, retrievalMetrics) <==>
              !NotApplicable(report, id, metric, retrievalMetrics) && !CountsFailure(report, id, metric, retrievalMetrics)
  {
  }

  method ExpectedReportMetric(report: Report, ids: seq<string>, metric: string, retrievalMetrics: set<string>)
    returns (r: Result<Record, Error>)
    ensures r.Success? <==> AllUsable(report, ids, metric, retrievalMetrics)
    ensures r.Failure? ==> r.error == Invalid
    ensures r.Success? ==> r.value == RecordOf(Tally(report, ids, metric, retrievalMetrics))
    ensures r.Success? <==> forall i :: 0 <= i < |ids| ==> Countable(report, ids[i], metric, retrievalMetrics)
    ensures r.Success? ==> r.value == Recount(report, ids, metric, retrievalMetrics)
  {
    hide Classify, Tally, Countable, Recount;
    TallyIsRecount(report, ids, metric, retrievalMetrics);
    var applicable, inapplicable, failures, denominator := 0, 0, 0, 0;
    var numerator := 0.0;
    TallyEmpty(report, metric, retrievalMetrics);
    for i := 0 to |ids|
      invariant AllUsable(report, ids[..i], metric, retrievalMetrics)
      invariant Totals(applicable, inapplicable, failures, numerator, denominator)
                == Tally(report, ids[..i], metric, retrievalMetrics)
    {
      TallyExtends(report, ids, i, metric, retrievalMetrics);
      match Classify(report, ids[i], metric, retrievalMetrics) {
        case Rejected => return Failure(Invalid);
        case Inapplicable => inapplicable := inapplicable + 1;
        case Failed => applicable, failures := applicable + 1, failures + 1;
        case Scored(value) =>
          applicable, denominator, numerator := applicable + 1, denominator + 1, numerator + value;
      }
    }
    assert ids[..|ids|] == ids;
    r := Success(Record(applicable, inapplicable, failures, numerator, denominator,
                        if denominator == 0 then None else Some(numerator / denominator as real)));
  }

  // ---------- the checker ----------

  predicate MetricValid(r: Record, caseCount: int) {
    && r.applicable >= 0 && r.inapplicable >= 0 && r.failures >= 0 && r.denominator >= 0
    && r.applicable + r.inapplicable == caseCount && r.failures <= r.applicable
    && r.denominator == r.applicable - r.failures
    && 0.0 <= r.numerator <= r.denominator as real
    && (if r.denominator == 0 then r.value.None? && r.numerator == 0.0
        else r.value == Some(r.numerator / r.denominator as real))
  }

  predicate CategoryValid(c: Category, metrics: set<string>) {
    && c.caseCount >= 0 && (forall i :: 0 <= i < |c.caseIds| ==> c.caseIds[i] != "")
    && c.caseCount == |c.caseIds| && Distinct(c.caseIds)
    && c.metrics.Keys == metrics && forall m :: m in metrics ==> MetricValid(c.metrics[m], c.caseCount)
  }

  function AllIds(categories: seq<Category>): seq<string>
    decreases |categories|
  {
    if categories == [] then [] else AllIds(categories[..|categories| - 1]) + categories[|categories| - 1].caseIds
  }

  function CaseCount(categories: seq<Category>): int
    decreases |categories|
  {
    if categories == [] then 0 else CaseCount(categories[..|categories| - 1]) + categories[|categories| - 1].caseCount
  }

  function Sorted(ids: seq<string>): seq<string> { Sort(StringLe, ids) }

  /** A record equals the figures recomputed from the observations of the given cases. */
  predicate Reconciles(report: Report, r: Record, ids: seq<string>, metric: string, retrievalMetrics: set<string>) {
    AllUsable(report, Sorted(ids), metric, retrievalMetrics)
    && r == RecordOf(Tally(report, Sorted(ids), metric, retrievalMetrics))
  }

  predicate MetricAccepted(report: Report, categories: seq<Category>, r: Record, m: string, retrievalMetrics: set<string>)
    requires forall i :: 0 <= i < |categories| ==> m in categories[i].metrics
  {
    && MetricValid(r, CaseCount(categories))
    && Reconciles(report, r, AllIds(categories), m, retrievalMetrics)
    && forall i :: 0 <= i < |categories| ==>
         Reconciles(report, categories[i].metrics[m], categories[i].caseIds, m, retrievalMetrics)
  }

  ghost predicate Accepts(report: Report, categories: seq<Category>, aggregate: map<string, Record>, metrics: set<string>,
                          retrievalMetrics: set<string>, expected: Option<seq<string>>, requireAll: bool) {
    && categories != []
    && (requireAll ==> (set i | 0 <= i < |categories| :: categories[i].name) == ALL_CATEGORIES)
    && (forall i :: 0 <= i < |categories| ==> CategoryValid(categories[i], metrics))
    && (expected.Some? ==> Distinct(AllIds(categories)) && Sorted(AllIds(categories)) == expected.value)
    && aggregate.Keys == metrics
    && (forall i :: 0 <= i < |categories| ==> categories[i].metrics.Keys == metrics)
    && (forall m :: m in metrics ==> MetricAccepted(report, categories, aggregate[m], m, retrievalMetrics))
  }

  method DistinctIds(ids: seq<string>) returns (distinct: bool)
    ensures distinct <==> Distinct(ids)
  {
    var seen: set<string> := {};
    for i := 0 to |ids|
      invariant seen == set k | 0 <= k < i :: ids[k]
      invariant Distinct(ids[..i])
    {
      if ids[i] in seen { return false; }
      seen := seen + {ids[i]};
    }
    assert ids[..|ids|] == ids;
    return true;
  }

  method ReconcileMetric(report: Report, r: Record, ids: seq<string>, metric: string, retrievalMetrics: set<string>)
    returns (result: Result<(), Error>)
    ensures result.Success? <==> Reconciles(report, r, ids, metric, retrievalMetrics)
    ensures result.Failure? ==>
              result.error == if AllUsable(report, Sorted(ids), metric, retrievalMetrics) then ReconciliationFailed else Invalid
  {
    hide Recount, Countable, Tally;
    var expected := ExpectedReportMetric(report, Sorted(ids), metric, retrievalMetrics);
    if expected.Failure? { return Failure(expected.error); }
    if r != expected.value { return Failure(ReconciliationFailed); }
    return Success(());
  }

  /** The record of the metric differs from a recount that all its cases allow. */
  predicate Differs(report: Report, records: map<string, Record>, ids: seq<string>, m: string, retrievalMetrics: set<string>) {
    m in records && AllUsable(report, Sorted(ids), m, retrievalMetrics) && !Reconciles(report, records[m], ids, m, retrievalMetrics)
  }

  predicate SomeDiffers(report: Report, categories: seq<Category>, aggregate: map<string, Record>, m: string, retrievalMetrics: set<string>) {
    Differs(report, aggregate, AllIds(categories), m, retrievalMetrics)
    || exists i :: 0 <= i < |categories| && Differs(report, categories[i].metrics, categories[i].caseIds, m, retrievalMetrics)
  }

  /** The first loop: each category on its own, collecting all case ids and the case count. */
  method ValidateCategories(categories: seq<Category>, metrics: set<string>) returns (ok: bool, ids: seq<string>, count: int)
    ensures ok <==> forall i :: 0 <= i < |categories| ==> CategoryValid(categories[i], metrics)
    ensures ok ==> ids == AllIds(categories) && count == CaseCount(categories)
  {
    hide MetricValid, Distinct;
    ids, count := [], 0;
    for i := 0 to |categories|
      invariant ids == AllIds(categories[..i]) && count == CaseCount(categories[..i])
      invariant forall k :: 0 <= k < i ==> CategoryValid(categories[k], metrics)
    {
      var c := categories[i];
      var distinct := DistinctIds(c.caseIds);
      if c.caseCount < 0 || !(forall k :: 0 <= k < |c.caseIds| ==> c.caseIds[k] != "") || c.caseCount != |c.caseIds| || !distinct
         || c.metrics.Keys != metrics || !(forall m :: m in metrics ==> MetricValid(c.metrics[m], c.caseCount)) {
        return false, ids, count;
      }
      assert categories[..i + 1][..i] == categories[..i];
      ids, count := ids + c.caseIds, count + c.caseCount;
    }
    assert categories[..|categories|] == categories;
    ok := true;
  }

  /** One round of the second loop: one metric, aggregate first, then every category. */
  method ValidateMetric(report: Report, categories: seq<Category>, ids: seq<string>, count: int, r: Record, m: string,
                        retrievalMetrics: set<string>)
    returns (result: Result<(), Error>)
    requires ids == AllIds(categories) && count == CaseCount(categories)
    requires forall i :: 0 <= i < |categories| ==> m in categories[i].metrics
    ensures result.Success? <==> MetricAccepted(report, categories, r, m, retrievalMetrics)
    ensures result.Failure? ==> result.error == Invalid || result.error == ReconciliationFailed
    ensures result == Failure(ReconciliationFailed) ==>
              SomeDiffers(report, categories, map[m := r], m, retrievalMetrics)
  {
    hide Reconciles, MetricValid, AllUsable;
    if !MetricValid(r, count) { return Failure(Invalid); }
    var round := ReconcileMetric(report, r, ids, m, retrievalMetrics);
    if round.Failure? { return round; }
    for i := 0 to |categories|
      invariant forall k :: 0 <= k < i ==>
                  Reconciles(report, categories[k].metrics[m], categories[k].caseIds, m, retrievalMetrics)
    {
      round := ReconcileMetric(report, categories[i].metrics[m], categories[i].caseIds, m, retrievalMetrics);
      if round.Failure? { return round; }
    }
    return Success(());
  }

  /** The second loop: all metrics, in any order. */
  method ValidateMetrics(report: Report, categories: seq<Category>, ids: seq<string>, count: int, aggregate: map<string, Record>,
                         retrievalMetrics: set<string>)
    returns (r: Result<(), Error>)
    requires ids == AllIds(categories) && count == CaseCount(categories)
    requires forall i :: 0 <= i < |categories| ==> categories[i].metrics.Keys == aggregate.Keys
    ensures r.Success? <==> forall m :: m in aggregate ==> MetricAccepted(report, categories, aggregate[m], m, retrievalMetrics)
    ensures r.Failure? ==> r.error == Invalid || r.error == ReconciliationFailed
    ensures r == Failure(ReconciliationFailed) ==> exists m :: m in aggregate && SomeDiffers(report, categories, aggregate, m, retrievalMetrics)
  {
    hide MetricAccepted, AllIds, CaseCount, SomeDiffers;
    var rest := aggregate.Keys;
    while rest != {}
      invariant rest <= aggregate.Keys
      invariant forall m :: m in aggregate.Keys - rest ==> MetricAccepted(report, categories, aggregate[m], m, retrievalMetrics)
      decreases rest
    {
      var m :| m in rest;
      var round := ValidateMetric(report, categories, ids, count, aggregate[m], m, retrievalMetrics);
      if round.Failure? {
        DiffersByItsRecord(report, categories, aggregate, m, retrievalMetrics);
        return round;
      }
      rest := rest - {m};
    }
    return Success(());
  }

  lemma DiffersByItsRecord(report: Report, categories: seq<Category>, aggregate: map<string, Record>, m: string, retrievalMetrics: set<string>)
    requires m in aggregate
    ensures SomeDiffers(report, categories, map[m := aggregate[m]], m, retrievalMetrics) <==>
            SomeDiffers(report, categories, aggregate, m, retrievalMetrics)
  {
  }

  method ValidateCategoryBreakdown(report: Report, categories: seq<Category>, aggregate: map<string, Record>,
                                   metrics: set<string>, retrievalMetrics: set<string>, expected: Option<seq<string>>,
                                   requireAll: bool)
    returns (r: Result<(), Error>)
    ensures r.Success? <==> Accepts(report, categories, aggregate, metrics, retrievalMetrics, expected, requireAll)
    ensures r == Failure(CaseSetMismatch) <==>
              && (requireAll ==> (set i | 0 <= i < |categories| :: categories[i].name) == ALL_CATEGORIES)
              && (forall i :: 0 <= i < |categories| ==> CategoryValid(categories[i], metrics))
              && expected.Some? && !(Distinct(AllIds(categories)) && Sorted(AllIds(categories)) == expected.value)
    ensures r == Failure(ReconciliationFailed) ==>
              exists m :: m in metrics && SomeDiffers(report, categories, aggregate, m, retrievalMetrics)
  {
    hide MetricAccepted, Sorted, Distinct, AllIds, CaseCount;
    if requireAll && (set i | 0 <= i < |categories| :: categories[i].name) != ALL_CATEGORIES { return Failure(Invalid); }
    var ok, ids, count := ValidateCategories(categories, metrics);
    if !ok { return Failure(Invalid); }
    assert forall i :: 0 <= i < |categories| ==> categories[i].metrics.Keys == metrics by { CategoriesHaveMetrics(categories, metrics); }
    var distinct := DistinctIds(ids);
    if expected.Some? && (!distinct || Sorted(ids) != expected.value) { return Failure(CaseSetMismatch); }
    if categories == [] || aggregate.Keys != metrics { return Failure(Invalid); }
    hide CategoryValid;
    r := ValidateMetrics(report, categories, ids, count, aggregate, retrievalMetrics);
  }

  lemma CategoriesHaveMetrics(categories: seq<Category>, metrics: set<string>)
    requires forall i :: 0 <= i < |categories| ==> CategoryValid(categories[i], metrics)
    ensures forall i :: 0 <= i < |categories| ==> categories[i].metrics.Keys == metrics
  {
  }

  // ---------- what acceptance implies ----------

  lemma {:induction false} TallySplit(report: Report, a: seq<string>, b: seq<string>, metric: string, retrievalMetrics: set<string>)
    ensures Tally(report, a + b, metric, retrievalMetrics)
            == Plus(Tally(report, a, metric, retrievalMetrics), Tally(report, b, metric, retrievalMetrics))
    decreases |b|
  {
    hide Tally, One, Classify;
    if b == [] {
      assert a + b == a;
      TallyEmpty(report, metric, retrievalMetrics);
    } else {
      var init, x := b[..|b| - 1], b[|b| - 1];
      TallySplit(report, a, init, metric, retrievalMetrics);
      assert a + b == (a + init) + [x] && b == init + [x];
      TallyLast(report, a + init, x, metric, retrievalMetrics);
      TallyLast(report, init, x, metric, retrievalMetrics);
    }
  }

  lemma TallyLast(report: Report, ids: seq<string>, id: string, metric: string, retrievalMetrics: set<string>)
    ensures Tally(report, ids + [id], metric, retrievalMetrics)
            == Plus(Tally(report, ids, metric, retrievalMetrics), One(Classify(report, id, metric, retrievalMetrics)))
  {
    hide Classify;
    assert (ids + [id])[..|ids|] == ids;
  }

  /** Figures do not depend on the order in which cases are visited. */
  lemma {:induction false} TallyPermutes(report: Report, a: seq<string>, b: seq<string>, metric: string, retrievalMetrics: set<string>)
    requires multiset(a) == multiset(b)
    ensures Tally(report, a, metric, retrievalMetrics) == Tally(report, b, metric, retrievalMetrics)
    decreases |a|
  {
    hide Classify;
    assert |a| == |multiset(a)| == |multiset(b)| == |b|;
    if a != [] {
      var init, x := a[..|a| - 1], a[|a| - 1];
      assert a == init + [x];
      assert x in multiset(b);
      var i :| 0 <= i < |b| && b[i] == x;
      var others := b[..i] + b[i + 1..];
      Removed(b, i);
      assert multiset(init) == multiset(a) - multiset{x};
      TallyPermutes(report, init, others, metric, retrievalMetrics);
      TallyMoves(report, b, i, metric, retrievalMetrics);
    }
  }

  lemma Removed(b: seq<string>, i: nat)
    requires i < |b|
    ensures multiset(b[..i] + b[i + 1..]) == multiset(b) - multiset{b[i]}
  {
    assert b == b[..i] + [b[i]] + b[i + 1..];
  }

  lemma TallyMoves(report: Report, b: seq<string>, i: nat, metric: string, retrievalMetrics: set<string>)
    requires i < |b|
    ensures Tally(report, b, metric, retrievalMetrics)
            == Plus(Tally(report, b[..i] + b[i + 1..], metric, retrievalMetrics), One(Classify(report, b[i], metric, retrievalMetrics)))
  {
    hide Classify, Tally;
    var x := b[i];
    assert b == b[..i] + ([x] + b[i + 1..]);
    TallySplit(report, b[..i], [x] + b[i + 1..], metric, retrievalMetrics);
    TallySplit(report, [x], b[i + 1..], metric, retrievalMetrics);
    TallySplit(report, b[..i], b[i + 1..], metric, retrievalMetrics);
    TallyEmpty(report, metric, retrievalMetrics);
    TallyExtends(report, [x], 0, metric, retrievalMetrics);
    assert [x][..1] == [x] && [x][..0] == [];
  }

  function CategorySum(categories: seq<Category>, metric: string): Totals
    requires forall i :: 0 <= i < |categories| ==> metric in categories[i].metrics
    decreases |categories|
  {
    if categories == [] then NOTHING
    else
      var last := |categories| - 1;
      assert metric in categories[last].metrics;
      Plus(CategorySum(categories[..last], metric), TotalsOf(categories[last].metrics[metric]))
  }

  lemma {:induction false} CategoriesTally(report: Report, categories: seq<Category>, metric: string, retrievalMetrics: set<string>)
    requires forall i :: 0 <= i < |categories| ==>
               metric in categories[i].metrics
               && Reconciles(report, categories[i].metrics[metric], categories[i].caseIds, metric, retrievalMetrics)
    ensures Tally(report, AllIds(categories), metric, retrievalMetrics) == CategorySum(categories, metric)
    decreases |categories|
  {
    hide Classify;
    if categories != [] {
      var init, c := categories[..|categories| - 1], categories[|categories| - 1];
      CategoriesTally(report, init, metric, retrievalMetrics);
      TallySplit(report, AllIds(init), c.caseIds, metric, retrievalMetrics);
      SortPermutes(StringLe, c.caseIds);
      TallyPermutes(report, Sorted(c.caseIds), c.caseIds, metric, retrievalMetrics);
    }
  }

  /** In any accepted breakdown, every aggregate figure of every metric is the sum of the categories' figures. */
  lemma AcceptedBreakdownAdds(report: Report, categories: seq<Category>, aggregate: map<string, Record>, metrics: set<string>,
                              retrievalMetrics: set<string>, expected: Option<seq<string>>, requireAll: bool, metric: string)
    requires metric in metrics
    ensures Accepts(report, categories, aggregate, metrics, retrievalMetrics, expected, requireAll) ==>
              && metric in aggregate && (forall i :: 0 <= i < |categories| ==> metric in categories[i].metrics)
              && TotalsOf(aggregate[metric]) == CategorySum(categories, metric)
  {
    if Accepts(report, categories, aggregate, metrics, retrievalMetrics, expected, requireAll) {
      assert MetricAccepted(report, categories, aggregate[metric], metric, retrievalMetrics);
      CategoriesTally(report, categories, metric, retrievalMetrics);
      SortPermutes(StringLe, AllIds(categories));
      TallyPermutes(report, Sorted(AllIds(categories)), AllIds(categories), metric, retrievalMetrics);
    }
  }

  predicate Holds(c: Category, id: string) {
    id in c.caseIds
  }

  lemma {:induction false} InAllIds(categories: seq<Category>, id: string)
    ensures id in AllIds(categories) <==> exists i :: 0 <= i < |categories| && Holds(categories[i], id)
    decreases |categories|
  {
    if categories != [] {
      InAllIds(categories[..|categories| - 1], id);
      HoldsLast(categories, id);
    }
  }

  lemma HoldsLast(categories: seq<Category>, id: string)
    requires categories != []
    ensures var init := categories[..|categories| - 1];
            (exists i :: 0 <= i < |categories| && Holds(categories[i], id)) <==>
            id in categories[|categories| - 1].caseIds || exists i :: 0 <= i < |init| && Holds(init[i], id)
  {
    var last := |categories| - 1;
    var init := categories[..last];
    if i :| 0 <= i < |init| && Holds(init[i], id) { assert Holds(categories[i], id); }
    if i :| 0 <= i < |categories| && Holds(categories[i], id) {
      if i < last { assert Holds(init[i], id); }
    }
    assert Holds(categories[last], id) <==> id in categories[last].caseIds;
  }

  lemma {:induction false} DistinctMeansOneCategory(categories: seq<Category>, i: nat, j: nat, id: string)
    requires Distinct(AllIds(categories)) && i < j < |categories| && Holds(categories[i], id)
    ensures !Holds(categories[j], id)
    decreases |categories|
  {
    var last := |categories| - 1;
    var before, ids := AllIds(categories[..last]), categories[last].caseIds;
    assert Distinct(before) by { assert forall k :: 0 <= k < |before| ==> AllIds(categories)[k] == before[k]; }
    if j < last {
      DistinctMeansOneCategory(categories[..last], i, j, id);
    } else {
      assert Holds(categories[..last][i], id);
      InAllIds(categories[..last], id);
      var k :| 0 <= k < |before| && before[k] == id;
      forall l | 0 <= l < |ids| ensures ids[l] != id {
        assert AllIds(categories)[k] == id && AllIds(categories)[|before| + l] == ids[l];
      }
    }
  }

  /** A breakdown accepted against an expected case set partitions it: every expected case lies in exactly one
      category, and nothing else does. */
  lemma AcceptedBreakdownPartitions(report: Report, categories: seq<Category>, aggregate: map<string, Record>, metrics: set<string>,
                                    retrievalMetrics: set<string>, expected: seq<string>, requireAll: bool, id: string)
    requires Accepts(report, categories, aggregate, metrics, retrievalMetrics, Some(expected), requireAll)
    ensures id in expected <==> exists i :: 0 <= i < |categories| && Holds(categories[i], id)
    ensures forall i, j :: 0 <= i < j < |categories| ==> !(Holds(categories[i], id) && Holds(categories[j], id))
  {
    InAllIds(categories, id);
    InSort(StringLe, AllIds(categories), id);
    forall i, j | 0 <= i < j < |categories| ensures !(Holds(categories[i], id) && Holds(categories[j], id)) {
      if Holds(categories[i], id) { DistinctMeansOneCategory(categories, i, j, id); }
    }
  }

  // ---------- what acceptance means on the report's own fields ----------

  /** Every case can be counted, and the record is what their fields give. */
  ghost predicate Recounted(report: Report, r: Record, ids: seq<string>, metric: string, retrievalMetrics: set<string>) {
    (forall i :: 0 <= i < |ids| ==> Countable(report, ids[i], metric, retrievalMetrics))
    && r == Recount(report, ids, metric, retrievalMetrics)
  }

  lemma ReconcilesIsRecounted(report: Report, r: Record, ids: seq<string>, metric: string, retrievalMetrics: set<string>)
    ensures Reconciles(report, r, ids, metric, retrievalMetrics) <==> Recounted(report, r, ids, metric, retrievalMetrics)
  {
    hide Countable, Recount, Tally, Classify;
    var sorted := Sorted(ids);
    SortPermutes(StringLe, ids);
    TallyIsRecount(report, ids, metric, retrievalMetrics);
    TallyPermutes(report, sorted, ids, metric, retrievalMetrics);
    forall id ensures id in sorted <==> id in ids { InSort(StringLe, ids, id); }
    assert (forall i :: 0 <= i < |sorted| ==> Classify(report, sorted[i], metric, retrievalMetrics) != Rejected)
           <==> forall id :: id in sorted ==> Classify(report, id, metric, retrievalMetrics) != Rejected;
    assert (forall i :: 0 <= i < |ids| ==> Classify(report, ids[i], metric, retrievalMetrics) != Rejected)
           <==> forall id :: id in ids ==> Classify(report, id, metric, retrievalMetrics) != Rejected;
  }

  lemma ScoreInUnit(report: Report, id: string, metric: string, retrievalMetrics: set<string>)
    requires Countable(report, id, metric, retrievalMetrics) && CountsScore(report, id, metric, retrievalMetrics)
    ensures 0.0 <= Score(report, id, metric, retrievalMetrics) <= 1.0
  {
    hide Fractions.Gcd;
    if metric in retrievalMetrics {
      var decision := report.retrieval[id].decisions[metric];
      RetrievalMetrics.QuotientAtMostOne(decision.0 as real, decision.1 as real);
    }
  }

  lemma {:induction false} RecountAdds(report: Report, ids: seq<string>, metric: string, retrievalMetrics: set<string>)
    requires forall i :: 0 <= i < |ids| ==> Countable(report, ids[i], metric, retrievalMetrics)
    ensures var r := Recount(report, ids, metric, retrievalMetrics);
            r.applicable + r.inapplicable == |ids| && 0.0 <= r.numerator <= r.denominator as real
    decreases |ids|
  {
    hide Countable, NotApplicable, CountsFailure, CountsScore, Score;
    if ids != [] {
      var last := ids[|ids| - 1];
      RecountAdds(report, ids[..|ids| - 1], metric, retrievalMetrics);
      UnitsDiffer(report, last, metric, retrievalMetrics);
      if CountsScore(report, last, metric, retrievalMetrics) { ScoreInUnit(report, last, metric, retrievalMetrics); }
    }
  }

  /** A record that agrees with the recount passes every check of its own shape. */
  lemma RecountedIsValid(report: Report, r: Record, ids: seq<string>, metric: string, retrievalMetrics: set<string>)
    requires Recounted(report, r, ids, metric, retrievalMetrics)
    ensures MetricValid(r, |ids|)
  {
    hide Countable, NotApplicable, CountsFailure, CountsScore, Score;
    RecountAdds(report, ids, metric, retrievalMetrics);
  }

  /** A breakdown whose categories list distinct, named cases of the given metrics, and whose case sets fit. */
  ghost predicate WellShaped(categories: seq<Category>, aggregate: map<string, Record>, metrics: set<string>,
                             expected: Option<seq<string>>, requireAll: bool) {
    && categories != [] && aggregate.Keys == metrics
    && (requireAll ==> (set i | 0 <= i < |categories| :: categories[i].name) == ALL_CATEGORIES)
    && (forall i :: 0 <= i < |categories| ==>
          categories[i].caseCount == |categories[i].caseIds| && Distinct(categories[i].caseIds) && "" !in categories[i].caseIds
          && categories[i].metrics.Keys == metrics)
    && (expected.Some? ==> Distinct(AllIds(categories)) && Sorted(AllIds(categories)) == expected.value)
  }

  lemma {:induction false} CountsAreIds(categories: seq<Category>)
    requires forall i :: 0 <= i < |categories| ==> categories[i].caseCount == |categories[i].caseIds|
    ensures CaseCount(categories) == |AllIds(categories)|
    decreases |categories|
  {
    if categories != [] { CountsAreIds(categories[..|categories| - 1]); }
  }

  /** The validator accepts exactly the well-shaped breakdowns in which every record, of every category and of the
      aggregate, is what the report's fields give for its cases. */
  lemma AcceptsIff(report: Report, categories: seq<Category>, aggregate: map<string, Record>, metrics: set<string>,
                   retrievalMetrics: set<string>, expected: Option<seq<string>>, requireAll: bool)
    ensures Accepts(report, categories, aggregate, metrics, retrievalMetrics, expected, requireAll) <==>
              && WellShaped(categories, aggregate, metrics, expected, requireAll)
              && (forall m :: m in metrics ==> Recounted(report, aggregate[m], AllIds(categories), m, retrievalMetrics))
              && (forall i, m :: 0 <= i < |categories| && m in metrics ==>
                    Recounted(report, categories[i].metrics[m], categories[i].caseIds, m, retrievalMetrics))
  {
    hide Recounted, Reconciles, MetricValid, Sorted, AllIds, CaseCount;
    if WellShaped(categories, aggregate, metrics, expected, requireAll) {
      CountsAreIds(categories);
      forall m | m in metrics
        ensures Reconciles(report, aggregate[m], AllIds(categories), m, retrievalMetrics)
                <==> Recounted(report, aggregate[m], AllIds(categories), m, retrievalMetrics)
        ensures Recounted(report, aggregate[m], AllIds(categories), m, retrievalMetrics) ==> MetricValid(aggregate[m], CaseCount(categories))
      {
        ReconcilesIsRecounted(report, aggregate[m], AllIds(categories), m, retrievalMetrics);
        if Recounted(report, aggregate[m], AllIds(categories), m, retrievalMetrics) {
          RecountedIsValid(report, aggregate[m], AllIds(categories), m, retrievalMetrics);
        }
      }
      forall i, m | 0 <= i < |categories| && m in metrics
        ensures Reconciles(report, categories[i].metrics[m], categories[i].caseIds, m, retrievalMetrics)
                <==> Recounted(report, categories[i].metrics[m], categories[i].caseIds, m, retrievalMetrics)
        ensures Recounted(report, categories[i].metrics[m], categories[i].caseIds, m, retrievalMetrics) ==>
                  MetricValid(categories[i].metrics[m], categories[i].caseCount)
      {
        ReconcilesIsRecounted(report, categories[i].metrics[m], categories[i].caseIds, m, retrievalMetrics);
        if Recounted(report, categories[i].metrics[m], categories[i].caseIds, m, retrievalMetrics) {
          RecountedIsValid(report, categories[i].metrics[m], categories[i].caseIds, m, retrievalMetrics);
        }
      }
    }
  }
}
