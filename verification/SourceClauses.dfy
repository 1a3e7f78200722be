/** The de-duplicated rendering: quotes that occur once in their source are merged where they overlap or
    touch, so that no stretch of a source is printed twice. */
module SourceClauses {
  import opened Wrappers
  import opened Sorting
  import opened Text
  import opened CitationMarkers
  import opened EvidenceExtraction
  import opened SourceSpans

  // ---------- one paragraph ----------

  datatype Fragment = Fragment(ordinal: nat, text: string)

  predicate FragmentLe(a: Fragment, b: Fragment) {
    a.ordinal < b.ordinal || (a.ordinal == b.ordinal && StringLe(a.text, b.text))
  }

  /** A second occurrence is searched from one position behind the first. */
  predicate Repeated(source: string, quote: string) {
    var at := Find(source, quote, 0);
    at >= 0 && Find(source, quote, at + 1) >= 0
  }

  predicate Quotes(source: string, quotes: seq<string>) {
    forall i :: 0 <= i < |quotes| ==> quotes[i] != "" && Contains(source, quotes[i])
  }

  lemma ContainedIsFound(source: string, quote: string)
    requires Contains(source, quote)
    ensures Find(source, quote, 0) >= 0
  {
  }

  predicate Counts(source: string, quotes: seq<string>, i: nat)
    requires i < |quotes|
  {
    quotes[i] !in quotes[..i] && !Repeated(source, quotes[i])
  }

  function SpanAt(source: string, quotes: seq<string>, i: nat): Span
    requires Quotes(source, quotes) && i < |quotes|
  {
    ContainedIsFound(source, quotes[i]);
    Span(Find(source, quotes[i], 0), Find(source, quotes[i], 0) + |quotes[i]|, i)
  }

  /** Where the quotes stand that occur once, the first time each is selected. */
  function SpansOf(source: string, quotes: seq<string>): seq<Span>
    requires Quotes(source, quotes)
    decreases |quotes|
  {
    if quotes == [] then []
    else
      var last := |quotes| - 1;
      SpansOf(source, quotes[..last]) + if Counts(source, quotes, last) then [SpanAt(source, quotes, last)] else []
  }

  /** The quotes that occur more than once, trimmed, the first time each is selected. */
  function RepeatsOf(source: string, quotes: seq<string>): seq<Fragment>
    decreases |quotes|
  {
    if quotes == [] then []
    else
      var last := |quotes| - 1;
      RepeatsOf(source, quotes[..last])
      + if quotes[last] !in quotes[..last] && Repeated(source, quotes[last]) then [Fragment(last, Strip(quotes[last]))] else []
  }

  predicate InSource(source: string, spans: seq<Span>) {
    forall k :: 0 <= k < |spans| ==> spans[k].start <= spans[k].end <= |source|
  }

  function Slices(source: string, merged: seq<Span>): seq<Fragment>
    requires InSource(source, merged)
  {
    seq(|merged|, k requires 0 <= k < |merged| =>
          Fragment(merged[k].ordinal, Strip(source[merged[k].start..merged[k].end])))
  }

  function Texts(fragments: seq<Fragment>): seq<string> {
    seq(|fragments|, k requires 0 <= k < |fragments| => fragments[k].text)
  }

  function Merged(source: string, quotes: seq<string>): (m: seq<Span>)
    requires Quotes(source, quotes)
    ensures IsUnion(SpansOf(source, quotes), m) && InSource(source, m)
  {
    SpansAreInSource(source, quotes);
    MergeIsUnion(SpansOf(source, quotes));
    UnionInSource(source, SpansOf(source, quotes), Merge(SpansOf(source, quotes)));
    Merge(SpansOf(source, quotes))
  }

  function Fragments(source: string, quotes: seq<string>): seq<Fragment>
    requires Quotes(source, quotes)
  {
    RepeatsOf(source, quotes) + Slices(source, Merged(source, quotes))
  }

  function Paragraph(source: string, quotes: seq<string>): string
    requires Quotes(source, quotes)
  {
    Join(" ", Texts(Sort(FragmentLe, Fragments(source, quotes))))
  }

  // ---------- spans and quotes ----------

  lemma {:induction false} SpanIsOfAQuote(source: string, quotes: seq<string>, s: Span)
    requires Quotes(source, quotes) && s in SpansOf(source, quotes)
    ensures s.ordinal < |quotes| && Counts(source, quotes, s.ordinal) && s == SpanAt(source, quotes, s.ordinal)
    decreases |quotes|
  {
    hide Repeated, Find, Contains;
    var last := |quotes| - 1;
    var init := quotes[..last];
    if s in SpansOf(source, init) {
      SpanIsOfAQuote(source, init, s);
      assert init[..s.ordinal] == quotes[..s.ordinal];
    }
  }

  lemma {:induction false} QuoteHasSpan(source: string, quotes: seq<string>, i: nat)
    requires Quotes(source, quotes) && i < |quotes| && Counts(source, quotes, i)
    ensures SpanAt(source, quotes, i) in SpansOf(source, quotes)
    decreases |quotes|
  {
    hide Repeated, Find, Contains;
    var last := |quotes| - 1;
    if i < last {
      assert quotes[..last][..i] == quotes[..i];
      QuoteHasSpan(source, quotes[..last], i);
    }
  }

  /** The fragment of a quote with several occurrences, at its first selection. */
  predicate IsRepeat(source: string, quotes: seq<string>, f: Fragment) {
    && f.ordinal < |quotes| && quotes[f.ordinal] !in quotes[..f.ordinal] && Repeated(source, quotes[f.ordinal])
    && f.text == Strip(quotes[f.ordinal])
  }

  predicate OrdinalsAscend(fragments: seq<Fragment>) {
    forall k, l :: 0 <= k < l < |fragments| ==> fragments[k].ordinal < fragments[l].ordinal
  }

  lemma RepeatInFront(source: string, quotes: seq<string>, f: Fragment)
    requires quotes != []
    ensures var last := |quotes| - 1;
            IsRepeat(source, quotes, f) <==>
              IsRepeat(source, quotes[..last], f)
              || (quotes[last] !in quotes[..last] && Repeated(source, quotes[last]) && f == Fragment(last, Strip(quotes[last])))
  {
    hide Repeated, Strip;
    if f.ordinal < |quotes| - 1 { assert quotes[..|quotes| - 1][..f.ordinal] == quotes[..f.ordinal]; }
  }

  /** Every quote with several occurrences gives one fragment, in the order of selection. */
  lemma {:induction false} RepeatsAre(source: string, quotes: seq<string>)
    ensures forall f :: f in RepeatsOf(source, quotes) <==> IsRepeat(source, quotes, f)
    ensures OrdinalsAscend(RepeatsOf(source, quotes))
    decreases |quotes|
  {
    hide Repeated, Strip, IsRepeat;
    if quotes == [] {
      NoRepeats(source);
    } else {
      var init := quotes[..|quotes| - 1];
      RepeatsAre(source, init);
      forall f ensures f in RepeatsOf(source, quotes) <==> IsRepeat(source, quotes, f) { RepeatInFront(source, quotes, f); }
      forall k | 0 <= k < |RepeatsOf(source, init)| ensures RepeatsOf(source, init)[k].ordinal < |init| {
        RepeatFits(source, init, RepeatsOf(source, init)[k]);
      }
    }
  }

  lemma NoRepeats(source: string)
    ensures forall f :: !IsRepeat(source, [], f)
  {
  }

  lemma RepeatFits(source: string, quotes: seq<string>, f: Fragment)
    requires IsRepeat(source, quotes, f)
    ensures f.ordinal < |quotes| && f.text == Strip(quotes[f.ordinal])
  {
  }

  /** The first selection of a quote. */
  lemma {:induction false} FirstSelection(quotes: seq<string>, i: nat) returns (j: nat)
    requires i < |quotes|
    ensures j <= i && quotes[j] == quotes[i] && quotes[j] !in quotes[..j]
  {
    j := i;
    if quotes[i] in quotes[..i] {
      var k :| 0 <= k < i && quotes[k] == quotes[i];
      j := FirstSelection(quotes, k);
    }
  }

  lemma SpansAreInSource(source: string, quotes: seq<string>)
    requires Quotes(source, quotes)
    ensures Nonempty(SpansOf(source, quotes)) && InSource(source, SpansOf(source, quotes))
  {
    hide SpansOf, Repeated, Find, Contains;
    var spans := SpansOf(source, quotes);
    forall k | 0 <= k < |spans| ensures spans[k].start < spans[k].end <= |source| {
      SpanIsOfAQuote(source, quotes, spans[k]);
      FindFits(source, quotes[spans[k].ordinal], 0);
    }
  }

  lemma UnionInSource(source: string, spans: seq<Span>, m: seq<Span>)
    requires IsUnion(spans, m) && InSource(source, spans)
    ensures InSource(source, m)
  {
    forall k | 0 <= k < |m| ensures m[k].start <= m[k].end <= |source| {
      assert Covers(m, m[k].end - 1);
      var i :| 0 <= i < |spans| && spans[i].start <= m[k].end - 1 < spans[i].end;
    }
  }

  /** The position belongs to the only occurrence of the quote. */
  predicate On(source: string, quote: string, p: int) {
    !Repeated(source, quote) && Find(source, quote, 0) <= p < Find(source, quote, 0) + |quote|
  }

  /** A quote stands on a position alone: it has one occurrence in the source, and that one holds the position. */
  lemma OnMeans(source: string, quote: string, p: int)
    requires Contains(source, quote)
    ensures On(source, quote, p) <==>
            exists i :: OccursAt(source, quote, i) && i <= p < i + |quote| && forall j :: OccursAt(source, quote, j) ==> j == i
  {
    hide OccursAt;
    var at := Find(source, quote, 0);
    ContainedIsFound(source, quote);
    forall j | OccursAt(source, quote, j) ensures j >= at { OccursInside(source, quote, j); }
    if Find(source, quote, at + 1) >= 0 { assert OccursAt(source, quote, Find(source, quote, at + 1)); }
    assert OccursAt(source, quote, at);
  }

  predicate Selected(source: string, quotes: seq<string>, p: int) {
    exists i :: 0 <= i < |quotes| && On(source, quotes[i], p)
  }

  lemma CoveredIsSelected(source: string, quotes: seq<string>, p: int)
    requires Quotes(source, quotes)
    ensures Covers(SpansOf(source, quotes), p) <==> Selected(source, quotes, p)
  {
    hide SpansOf, Repeated, Find, Contains;
    var spans := SpansOf(source, quotes);
    if Covers(spans, p) {
      var k :| 0 <= k < |spans| && spans[k].start <= p < spans[k].end;
      SpanIsOfAQuote(source, quotes, spans[k]);
      assert On(source, quotes[spans[k].ordinal], p);
    }
    if Selected(source, quotes, p) {
      var i :| 0 <= i < |quotes| && On(source, quotes[i], p);
      var j := FirstSelection(quotes, i);
      QuoteHasSpan(source, quotes, j);
      var k :| 0 <= k < |spans| && spans[k] == SpanAt(source, quotes, j);
      assert spans[k].start <= p < spans[k].end;
    }
  }

  /** A position is printed from the merged stretches exactly when a selected quote stands there, and the
      stretches are apart, so no position is printed twice. */
  lemma PrintedOnce(source: string, quotes: seq<string>)
    requires Quotes(source, quotes)
    ensures Separated(Merged(source, quotes))
    ensures forall p :: Covers(Merged(source, quotes), p) <==> Selected(source, quotes, p)
  {
    hide SpansOf, Merged, Selected, Covers, Separated, Find, Contains;
    forall p ensures Covers(Merged(source, quotes), p) <==> Selected(source, quotes, p) { CoveredIsSelected(source, quotes, p); }
  }

  /** The merged stretches depend on which quotes are selected, not on the order or the number of times. */
  lemma SelectionOrderIsIrrelevant(source: string, a: seq<string>, b: seq<string>)
    requires Quotes(source, a) && Quotes(source, b) && forall q :: q in a <==> q in b
    ensures SameStretches(Merged(source, a), Merged(source, b))
  {
    hide SpansOf, Merged, Covers, Separated, Find, Contains, On;
    PrintedOnce(source, a);
    PrintedOnce(source, b);
    forall p ensures Selected(source, a, p) <==> Selected(source, b, p) { MoreSelected(source, a, b, p); MoreSelected(source, b, a, p); }
    UnionUnique(Merged(source, a), Merged(source, b));
  }

  lemma MoreSelected(source: string, a: seq<string>, b: seq<string>, p: int)
    requires forall q :: q in a ==> q in b
    ensures Selected(source, a, p) ==> Selected(source, b, p)
  {
    hide On;
    if Selected(source, a, p) {
      var i :| 0 <= i < |a| && On(source, a[i], p);
      assert a[i] in b;
    }
  }

  // ---------- nothing selected is lost ----------

  lemma FragmentIsPrinted(source: string, quotes: seq<string>, f: Fragment)
    requires Quotes(source, quotes) && f in Fragments(source, quotes)
    ensures Contains(Paragraph(source, quotes), f.text)
  {
    hide Sort, Fragments, Join, Contains, Quotes;
    var sorted := Sort(FragmentLe, Fragments(source, quotes));
    InSort(FragmentLe, Fragments(source, quotes), f);
    var k :| 0 <= k < |sorted| && sorted[k] == f;
    assert Texts(sorted)[k] == f.text;
    JoinContains(" ", Texts(sorted), k);
  }

  /** Every selected quote, trimmed, appears in one piece in the paragraph of its source. */
  lemma EveryQuoteIsPrinted(source: string, quotes: seq<string>, i: nat)
    requires Quotes(source, quotes) && i < |quotes| && !Blank(quotes[i])
    ensures Contains(Paragraph(source, quotes), Strip(quotes[i]))
  {
    hide Sort, SpansOf, RepeatsOf, Merged, Paragraph, Contains, Find, Repeated, Strip, Blank, OccursAt, Covers, Ranked;
    var j := FirstSelection(quotes, i);
    if Repeated(source, quotes[j]) {
      RepeatsAre(source, quotes);
      assert IsRepeat(source, quotes, Fragment(j, Strip(quotes[j])));
      FragmentIsPrinted(source, quotes, Fragment(j, Strip(quotes[j])));
    } else {
      QuoteHasSpan(source, quotes, j);
      var spans, m := SpansOf(source, quotes), Merged(source, quotes);
      var s := SpanAt(source, quotes, j);
      var n :| 0 <= n < |spans| && spans[n] == s;
      assert Hosted(m, spans[n]);
      var k :| 0 <= k < |m| && Within(s, m[k]) && m[k].ordinal <= s.ordinal;
      assert Slices(source, m)[k] in Fragments(source, quotes);
      FragmentIsPrinted(source, quotes, Slices(source, m)[k]);
      FoundThere(source, quotes[j]);
      SliceContains(source, m[k].start, s.start, s.end, m[k].end);
      ContainsTransitive(Paragraph(source, quotes), Slices(source, m)[k].text, Strip(quotes[j]));
    }
  }

  lemma FoundThere(source: string, quote: string)
    requires Find(source, quote, 0) >= 0
    ensures Find(source, quote, 0) + |quote| <= |source|
    ensures source[Find(source, quote, 0)..Find(source, quote, 0) + |quote|] == quote
  {
  }

  lemma SliceContains(source: string, a: nat, b: nat, c: nat, d: nat)
    requires a <= b <= c <= d <= |source| && !Blank(source[b..c])
    ensures Contains(Strip(source[a..d]), Strip(source[b..c]))
  {
    hide Strip, Blank, Contains;
    assert source[a..d] == source[a..b] + source[b..c] + source[c..d];
    StripContains(source[a..b], source[b..c], source[c..d]);
  }

  // ---------- brackets that meet ----------

  /** Somewhere in the source a "[[" stands whose two brackets both belong to selected quotes. */
  predicate BracketsMeet(source: string, quotes: seq<string>) {
    exists p :: 0 <= p < |source| && OccursAt(source, "[[", p) && Selected(source, quotes, p) && Selected(source, quotes, p + 1)
  }

  lemma RepeatIsClean(source: string, quotes: seq<string>, f: Fragment)
    requires f in RepeatsOf(source, quotes) && forall i :: 0 <= i < |quotes| ==> !Contains(quotes[i], "[[")
    ensures !Contains(f.text, "[[")
  {
    hide RepeatsOf, Contains, Strip;
    RepeatsAre(source, quotes);
    RepeatFits(source, quotes, f);
    StripInside(quotes[f.ordinal]);
    if Contains(f.text, "[[") { ContainsTransitive(quotes[f.ordinal], f.text, "[["); }
  }

  lemma SliceBrackets(source: string, from: nat, to: nat) returns (p: nat)
    requires from <= to <= |source| && Contains(Strip(source[from..to]), "[[")
    ensures from <= p && p + 2 <= to && OccursAt(source, "[[", p)
  {
    hide Contains, Strip, OccursAt;
    StripInside(source[from..to]);
    ContainsTransitive(source[from..to], Strip(source[from..to]), "[[");
    var at := Occurrence(source[from..to], "[[");
    PairAt(source[from..to], '[', at);
    p := from + at;
    PairAt(source, '[', p);
  }

  /** Only a merged stretch can bring a "[[" into the paragraph. */
  lemma FragmentBrackets(source: string, quotes: seq<string>, f: Fragment)
    requires Quotes(source, quotes) && forall i :: 0 <= i < |quotes| ==> !Contains(quotes[i], "[[")
    requires f in Fragments(source, quotes) && Contains(f.text, "[[")
    ensures BracketsMeet(source, quotes)
  {
    hide Contains, Strip, OccursAt, RepeatsOf, SpansOf, Merged, Selected, Find, Covers, IsUnion;
    var m := Merged(source, quotes);
    if f in RepeatsOf(source, quotes) { RepeatIsClean(source, quotes, f); }
    else {
      var k :| 0 <= k < |m| && Slices(source, m)[k] == f;
      var p := SliceBrackets(source, m[k].start, m[k].end);
      StretchIsSelected(source, quotes, k, p);
      StretchIsSelected(source, quotes, k, p + 1);
      PairAt(source, '[', p);
    }
  }

  lemma StretchIsSelected(source: string, quotes: seq<string>, k: nat, p: int)
    requires Quotes(source, quotes) && k < |Merged(source, quotes)|
    requires Merged(source, quotes)[k].start <= p < Merged(source, quotes)[k].end
    ensures Selected(source, quotes, p)
  {
    hide Contains, SpansOf, Merged, Selected, Find, IsUnion;
    PrintedOnce(source, quotes);
    assert Covers(Merged(source, quotes), p);
  }

  lemma MeetingIsPrinted(source: string, quotes: seq<string>)
    requires Quotes(source, quotes) && BracketsMeet(source, quotes)
    ensures Contains(Paragraph(source, quotes), "[[")
  {
    hide Contains, Strip, OccursAt, RepeatsOf, SpansOf, Merged, Selected, Find, Blank, Paragraph, Covers;
    var p :| 0 <= p < |source| && OccursAt(source, "[[", p) && Selected(source, quotes, p) && Selected(source, quotes, p + 1);
    var m := Merged(source, quotes);
    PrintedOnce(source, quotes);
    var k := OneStretch(m, p);
    PairAt(source, '[', p);
    assert source[p..p + 2] == "[[";
    BracketsAreNotSpace();
    SliceContains(source, m[k].start, p, p + 2, m[k].end);
    assert Slices(source, m)[k] in Fragments(source, quotes);
    FragmentIsPrinted(source, quotes, Slices(source, m)[k]);
    ContainsTransitive(Paragraph(source, quotes), Slices(source, m)[k].text, "[[");
  }

  lemma BracketsAreNotSpace()
    ensures !Blank("[[") && Strip("[[") == "[["
  {
    assert "[["[0] == '[';
  }

  /** A paragraph holds "[[" exactly when the brackets of two selected quotes meet in the source. */
  lemma ParagraphBrackets(source: string, quotes: seq<string>)
    requires Quotes(source, quotes) && forall i :: 0 <= i < |quotes| ==> !Contains(quotes[i], "[[")
    ensures Contains(Paragraph(source, quotes), "[[") <==> BracketsMeet(source, quotes)
  {
    hide Contains, Fragments, Sort, BracketsMeet, Join;
    if BracketsMeet(source, quotes) { MeetingIsPrinted(source, quotes); }
    if Contains(Paragraph(source, quotes), "[[") {
      var sorted := Sort(FragmentLe, Fragments(source, quotes));
      if forall k :: 0 <= k < |sorted| ==> !Contains(Texts(sorted)[k], "[[") { JoinClean(Texts(sorted)); }
      var k :| 0 <= k < |sorted| && Contains(Texts(sorted)[k], "[[");
      InSort(FragmentLe, Fragments(source, quotes), sorted[k]);
      FragmentBrackets(source, quotes, sorted[k]);
    }
  }

  // ---------- the loops that compute a paragraph ----------

  /** Repeated quotes become fragments of their own; the others become spans. */
  method ScanQuotes(source: string, quotes: seq<string>) returns (spans: seq<Span>, fragments: seq<Fragment>)
    requires Quotes(source, quotes)
    ensures spans == SpansOf(source, quotes) && fragments == RepeatsOf(source, quotes)
  {
    hide SpansOf, RepeatsOf, Find, Contains, Strip;
    var seen: set<string> := {};
    spans, fragments := [], [];
    NothingScanned(source, quotes);
    for ordinal := 0 to |quotes|
      invariant forall q :: q in seen <==> q in quotes[..ordinal]
      invariant spans == SpansOf(source, quotes[..ordinal]) && fragments == RepeatsOf(source, quotes[..ordinal])
    {
      var quote := quotes[ordinal];
      PrefixStep(source, quotes, ordinal);
      if quote in seen { continue; }
      seen := seen + {quote};
      var start := Find(source, quote, 0);
      ContainedIsFound(source, quote);
      if Find(source, quote, start + 1) >= 0 {
        fragments := fragments + [Fragment(ordinal, Strip(quote))];
      } else {
        spans := spans + [Span(start, start + |quote|, ordinal)];
      }
    }
    assert quotes[..|quotes|] == quotes;
  }

  lemma NothingScanned(source: string, quotes: seq<string>)
    ensures SpansOf(source, quotes[..0]) == [] && RepeatsOf(source, quotes[..0]) == []
  {
  }

  method RenderParagraph(source: string, quotes: seq<string>) returns (text: string)
    requires Quotes(source, quotes)
    ensures text == Paragraph(source, quotes)
  {
    hide SpansOf, RepeatsOf, Sort, Merge, IsUnion, Join, Contains, Strip, Quotes;
    var spans, fragments := ScanQuotes(source, quotes);
    SpansAreInSource(source, quotes);
    var merged := MergeSpans(spans);
    assert merged == Merged(source, quotes);
    fragments := fragments + Slices(source, merged);
    text := Join(" ", Texts(Sort(FragmentLe, fragments)));
  }

  lemma PrefixStep(source: string, quotes: seq<string>, i: nat)
    requires Quotes(source, quotes) && i < |quotes|
    ensures SpansOf(source, quotes[..i + 1]) ==
            SpansOf(source, quotes[..i]) + if Counts(source, quotes, i) then [SpanAt(source, quotes, i)] else []
    ensures RepeatsOf(source, quotes[..i + 1]) ==
            RepeatsOf(source, quotes[..i])
            + if quotes[i] !in quotes[..i] && Repeated(source, quotes[i]) then [Fragment(i, Strip(quotes[i]))] else []
  {
    hide Repeated, Find, Contains, Strip;
    assert quotes[..i + 1][..i] == quotes[..i];
  }

  // ---------- the whole rendering ----------

  predicate Verbatim(p: Payload) {
    forall i :: 0 <= i < |p.facts| ==> p.facts[i].text == p.facts[i].quote
  }

  /** The quotes selected from one source, in order. */
  function QuotesOf(items: seq<Item>, alias: string): seq<string>
    decreases |items|
  {
    if items == [] then []
    else
      QuotesOf(items[..|items| - 1], alias)
      + if items[|items| - 1].alias == alias then [items[|items| - 1].quote] else []
  }

  lemma {:induction false} QuotesAreOfItems(items: seq<Item>, alias: string)
    ensures forall q :: q in QuotesOf(items, alias) ==> exists i :: 0 <= i < |items| && items[i].alias == alias && items[i].quote == q
    decreases |items|
  {
    if items != [] {
      var init, last := items[..|items| - 1], items[|items| - 1];
      QuotesAreOfItems(init, alias);
      forall q | q in QuotesOf(items, alias)
        ensures exists i :: 0 <= i < |items| && items[i].alias == alias && items[i].quote == q
      {
        if q in QuotesOf(init, alias) {
          var i :| 0 <= i < |init| && init[i].alias == alias && init[i].quote == q;
          assert items[i].alias == alias && items[i].quote == q;
        } else {
          assert items[|items| - 1].alias == alias && items[|items| - 1].quote == q;
        }
      }
    }
  }

  method SelectQuotes(items: seq<Item>, cited: seq<string>) returns (selected: map<string, seq<string>>)
    requires forall i :: 0 <= i < |items| ==> items[i].alias in cited
    ensures forall a :: a in selected <==> a in cited
    ensures forall a :: a in selected ==> selected[a] == QuotesOf(items, a)
  {
    selected := map a | a in cited :: [];
    for i := 0 to |items|
      invariant forall a :: a in selected <==> a in cited
      invariant forall a :: a in selected ==> selected[a] == QuotesOf(items[..i], a)
    {
      assert items[..i + 1][..i] == items[..i];
      var alias := items[i].alias;
      selected := selected[alias := selected[alias] + [items[i].quote]];
    }
    assert items[..|items|] == items;
  }

  lemma QuotesAreUsable(items: seq<Item>, sources: map<string, string>, alias: string)
    requires alias in sources && forall i :: 0 <= i < |items| ==> ItemOk(items[i], sources)
    ensures Quotes(sources[alias], QuotesOf(items, alias))
    ensures forall i :: 0 <= i < |QuotesOf(items, alias)| ==> !Blank(QuotesOf(items, alias)[i])
    ensures (forall i :: 0 <= i < |items| ==> items[i].text == items[i].quote) ==>
              forall i :: 0 <= i < |QuotesOf(items, alias)| ==> !Contains(QuotesOf(items, alias)[i], "[[")
  {
    hide QuotesOf, Contains, ValidMarker, Blank;
    QuotesAreOfItems(items, alias);
    var quotes := QuotesOf(items, alias);
    forall i | 0 <= i < |quotes|
      ensures quotes[i] != "" && Contains(sources[alias], quotes[i]) && !Blank(quotes[i])
      ensures (forall i :: 0 <= i < |items| ==> items[i].text == items[i].quote) ==> !Contains(quotes[i], "[[")
    {
      assert quotes[i] in quotes;
      var j :| 0 <= j < |items| && items[j].alias == alias && items[j].quote == quotes[i];
      assert ItemOk(items[j], sources);
      EmptyIsBlank();
    }
  }

  lemma EmptyIsBlank()
    ensures Blank("")
  {
  }

  /** One paragraph per cited source. */
  function Deduplicated(items: seq<Item>, sources: map<string, string>): seq<Block>
    requires forall i :: 0 <= i < |items| ==> ItemOk(items[i], sources)
  {
    FirstUsesAre(items);
    seq(|FirstUses(items)|, k requires 0 <= k < |FirstUses(items)| =>
          var alias := FirstUses(items)[k];
          UsedIsAvailable(items, sources, alias);
          Block(Paragraph(sources[alias], QuotesOf(items, alias)), alias))
  }

  lemma UsedIsAvailable(items: seq<Item>, sources: map<string, string>, alias: string)
    requires alias in FirstUses(items) && forall i :: 0 <= i < |items| ==> ItemOk(items[i], sources)
    ensures alias in sources && ValidMarker(alias) && Quotes(sources[alias], QuotesOf(items, alias))
  {
    hide QuotesOf, Contains, ValidMarker, Blank, FirstUses, Quotes;
    FirstUsesAre(items);
    var i :| 0 <= i < |items| && items[i].alias == alias;
    assert ItemOk(items[i], sources);
    QuotesAreUsable(items, sources, alias);
  }

  ghost predicate NoBracketsMeet(items: seq<Item>, sources: map<string, string>) {
    forall a :: a in FirstUses(items) && a in sources ==> !BracketsMeet(sources[a], QuotesOf(items, a))
  }

  predicate ItemsVerbatim(items: seq<Item>) {
    forall i :: 0 <= i < |items| ==> items[i].text == items[i].quote
  }

  lemma VerbatimItems(p: Payload)
    ensures Verbatim(p) <==> ItemsVerbatim(Items(p))
  {
    if ItemsVerbatim(Items(p)) {
      forall i | 0 <= i < |p.facts| ensures p.facts[i].text == p.facts[i].quote {
        assert Items(p)[i] == Item(p.facts[i].alias, p.facts[i].quote, p.facts[i].text);
      }
    }
  }

  lemma DeduplicatedIsValid(items: seq<Item>, sources: map<string, string>)
    requires items != [] && ItemsVerbatim(items) && forall i :: 0 <= i < |items| ==> ItemOk(items[i], sources)
    ensures StructurallyValid(Print(Deduplicated(items, sources)), FirstUses(items), sources.Keys) <==> NoBracketsMeet(items, sources)
  {
    hide Contains, FirstUses, QuotesOf, BracketsMeet, Print, Paragraph, StructurallyValid, Quotes, ItemOk, ValidMarker, Distinct;
    FirstUsesAre(items);
    var blocks := Deduplicated(items, sources);
    assert Aliases(blocks) == FirstUses(items);
    forall k | 0 <= k < |blocks|
      ensures ValidMarker(blocks[k].alias) && blocks[k].alias in sources
      ensures Contains(blocks[k].body, "[[") <==> BracketsMeet(sources[blocks[k].alias], QuotesOf(items, blocks[k].alias))
    {
      var a := blocks[k].alias;
      assert a in FirstUses(items);
      UsedIsAvailable(items, sources, a);
      QuotesAreUsable(items, sources, a);
      ParagraphBrackets(sources[a], QuotesOf(items, a));
    }
    PrintedIsValid(blocks, sources.Keys);
    assert items[0].alias in FirstUses(items);
    assert Clean(blocks) <==> NoBracketsMeet(items, sources) by {
      forall a | a in FirstUses(items) ensures exists k :: 0 <= k < |blocks| && blocks[k].alias == a {
        var k :| 0 <= k < |FirstUses(items)| && FirstUses(items)[k] == a;
        assert blocks[k].alias == a;
      }
    }
  }

  method RenderSourceClauses(p: Payload, evidence: seq<Evidence>) returns (r: Result<Rendering, ExtractionError>)
    ensures r == Success(Refusal) <==> AcceptableRefusal(p)
    ensures r.Success? && r.value.Answer? <==>
            AcceptableAnswer(p, evidence) && Verbatim(p) && NoBracketsMeet(Items(p), Sources(evidence))
    ensures r.Success? && r.value.Answer? ==>
              && r.value == Answer(Print(Deduplicated(Items(p), Sources(evidence))), FirstUses(Items(p)))
              && Markers(r.value.text, 0) == Success(r.value.cited)
    ensures AcceptableAnswer(p, evidence) ==>
              && (r == Failure(Contract) <==> !Verbatim(p))
              && (r == Failure(Structure) <==> Verbatim(p) && !NoBracketsMeet(Items(p), Sources(evidence)))
  {
    hide Items, FirstUses, QuotesOf, Contains, Print, Paragraph, Paragraphs, NoBracketsMeet, ItemOk, Markers, Sources, Quotes, Verbatim;
    var result := RenderResult(p, evidence);
    if result.Failure? {
      return Failure(result.error);
    }
    if result.value.Refusal? { return Success(Refusal); }
    var verbatim := Verbatim(p);
    VerbatimItems(p);
    if !verbatim { return Failure(Contract); }
    var items, sources, cited := Items(p), Sources(evidence), result.value.cited;
    FirstUsesAre(items);
    forall i | 0 <= i < |items| ensures items[i].alias in cited {}
    var selected := SelectQuotes(items, cited);
    var blocks: seq<Block> := [];
    for k := 0 to |cited|
      invariant blocks == Deduplicated(items, sources)[..k]
    {
      var alias := cited[k];
      UsedIsAvailable(items, sources, alias);
      var body := RenderParagraph(sources[alias], selected[alias]);
      blocks := blocks + [Block(body, alias)];
    }
    assert blocks == Deduplicated(items, sources);
    var text := Print(blocks);
    DeduplicatedIsValid(items, sources);
    if !StructurallyValid(text, cited, sources.Keys) { return Failure(Structure); }
    return Success(Answer(text, cited));
  }

  /** When no cited source holds "[[", the rendering of an acceptable verbatim answer never fails. */
  lemma PlainSourcesNeverFail(items: seq<Item>, sources: map<string, string>)
    requires forall a :: a in FirstUses(items) && a in sources ==> !Contains(sources[a], "[[")
    ensures NoBracketsMeet(items, sources)
  {
    hide FirstUses, QuotesOf, Selected, OccursAt;
    forall a | a in FirstUses(items) && a in sources ensures !BracketsMeet(sources[a], QuotesOf(items, a)) {
      forall p | 0 <= p < |sources[a]| ensures !OccursAt(sources[a], "[[", p) { OccursIn(sources[a], "[[", p); }
    }
  }

  lemma FragmentLeIsTotalOrder()
    ensures TotalOrder(FragmentLe)
  {
    StringLeIsTotalOrder();
  }

  /** The fragments of a paragraph stand in the order of the earliest selection each of them holds. */
  lemma FragmentsInSelectionOrder(source: string, quotes: seq<string>)
    requires Quotes(source, quotes)
    ensures var fragments := Sort(FragmentLe, Fragments(source, quotes));
            forall i, j :: 0 <= i < j < |fragments| ==> fragments[i].ordinal <= fragments[j].ordinal
  {
    hide Fragments, Sort;
    FragmentLeIsTotalOrder();
    SortSorts(FragmentLe, Fragments(source, quotes));
  }

  lemma FindOnce(source: string, quote: string, at: nat)
    requires OccursAt(source, quote, at) && forall i :: 0 <= i <= |source| && i != at ==> !OccursAt(source, quote, i)
    ensures Find(source, quote, 0) == at && !Repeated(source, quote)
  {
    FindIs(source, quote, 0, at);
  }

  /** Two quotes without "[[" can meet in a source that holds it; the rendering of this selection fails. */
  lemma BracketsCanMeet() returns (source: string, quotes: seq<string>)
    ensures source == "a[[b" && quotes == ["a[", "[b"]
    ensures Quotes(source, quotes) && (forall i :: 0 <= i < |quotes| ==> !Contains(quotes[i], "[["))
    ensures BracketsMeet(source, quotes)
  {
    hide Find, Contains, Repeated, OccursAt;
    source, quotes := "a[[b", ["a[", "[b"];
    OnlyAt(source, 'a', '[', 0);
    OnlyAt(source, '[', 'b', 2);
    OccursIn(source, "a[", 0);
    OccursIn(source, "[b", 2);
    NoPair("a[");
    NoPair("[b");
    PairAt(source, '[', 1);
    assert On(source, quotes[0], 1) && On(source, quotes[1], 2);
    assert Selected(source, quotes, 1) && Selected(source, quotes, 2);
  }

  lemma OnlyAt(source: string, c: char, d: char, at: nat)
    requires at + 1 < |source| && source[at] == c && source[at + 1] == d
    requires forall i :: 0 <= i < |source| - 1 && i != at ==> source[i] != c || source[i + 1] != d
    ensures OccursAt(source, [c, d], at) && Find(source, [c, d], 0) == at && !Repeated(source, [c, d])
  {
    hide Find, Repeated;
    forall i ensures OccursAt(source, [c, d], i) <==> i == at {
      if 0 <= i < |source| - 1 { assert source[i..i + 2] == [source[i], source[i + 1]]; }
    }
    FindOnce(source, [c, d], at);
  }

  lemma NoPair(s: string)
    requires |s| == 2 && (s[0] != '[' || s[1] != '[')
    ensures !Contains(s, "[[")
  {
    hide Contains, OccursAt;
    if Contains(s, "[[") { var i := Occurrence(s, "[["); PairAt(s, '[', i); }
  }

  /** An acceptable verbatim answer on which `RenderSourceClauses` fails: its two quotes meet in a "[[". */
  lemma ARejectedRendering() returns (p: Payload, evidence: seq<Evidence>)
    ensures AcceptableAnswer(p, evidence) && Verbatim(p) && !NoBracketsMeet(Items(p), Sources(evidence))
  {
    hide Contains, BracketsMeet, Items, Sources, QuotesOf, Quotes, AcceptableAnswer, Verbatim, NoBracketsMeet;
    var source, quotes := BracketsCanMeet();
    assert quotes[0] == "a[" && quotes[1] == "[b";
    p, evidence := TwoClauses(source, quotes);
    MeetingItems(Items(p), Sources(evidence), "E1");
  }

  /** The answer that selects two short clean quotes of one source. */
  lemma TwoClauses(source: string, quotes: seq<string>) returns (p: Payload, evidence: seq<Evidence>)
    requires |quotes| == 2 && Quotes(source, quotes)
    requires forall i :: 0 <= i < 2 ==> |quotes[i]| == 2 && !Space(quotes[i][0]) && !Contains(quotes[i], "[[")
    ensures AcceptableAnswer(p, evidence) && Verbatim(p)
    ensures Items(p) != [] && Items(p)[0].alias == "E1" && Sources(evidence) == map["E1" := source]
    ensures QuotesOf(Items(p), "E1") == quotes
  {
    p, evidence := Payload("ANSWER", [], [Clause("E1", quotes[0]), Clause("E1", quotes[1])], [], None), [Evidence("E1", source)];
    var first, second := Item("E1", quotes[0], quotes[0]), Item("E1", quotes[1], quotes[1]);
    assert Items(p) == [first, second] && Ids(evidence) == ["E1"];
    hide Contains, Sources, Items, ItemOk, QuotesOf;
    OneSource(evidence[0]);
    ShortQuoteOk(first, source);
    ShortQuoteOk(second, source);
    TwoQuotes(Items(p), first, second);
  }

  lemma MeetingItems(items: seq<Item>, sources: map<string, string>, alias: string)
    requires items != [] && items[0].alias == alias && alias in sources
    requires BracketsMeet(sources[alias], QuotesOf(items, alias))
    ensures !NoBracketsMeet(items, sources)
  {
    hide BracketsMeet, QuotesOf, FirstUses;
    FirstUsesAre(items);
  }

  lemma ShortQuoteOk(item: Item, source: string)
    requires item == Item("E1", item.quote, item.quote) && |item.quote| == 2 && !Space(item.quote[0])
    requires Contains(source, item.quote) && !Contains(item.quote, "[[")
    ensures ItemOk(item, map["E1" := source])
  {
    hide Contains, Space;
  }

  lemma OneSource(e: Evidence)
    ensures Sources([e]) == map[e.id := e.content]
  {
    assert [e][..0] == [];
  }

  lemma TwoQuotes(items: seq<Item>, first: Item, second: Item)
    requires items == [first, second] && first.alias == second.alias
    ensures QuotesOf(items, first.alias) == [first.quote, second.quote]
  {
    assert [first][..0] == [] && QuotesOf([first], first.alias) == [first.quote];
    assert items[..1] == [first];
  }
}
