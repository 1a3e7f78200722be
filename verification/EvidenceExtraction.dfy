/** Rendering of an extraction: quotes are checked against their sources and printed as one cited paragraph
    per source, in the order in which sources are first used. */
module EvidenceExtraction {
  import opened Wrappers
  import opened Text
  import opened CitationMarkers

  datatype Fact = Fact(alias: string, quote: string, text: string)
  datatype Clause = Clause(alias: string, quote: string)
  datatype Payload = Payload(decision: string, facts: seq<Fact>, rules: seq<Clause>, exceptions: seq<Clause>,
                             refusalReason: Option<string>)
  datatype Evidence = Evidence(id: string, content: string)

  datatype Rendering = Refusal | Answer(text: string, cited: seq<string>)
  datatype ExtractionError = Contract | SourceAlias | SourceQuote | Structure

  const INSUFFICIENT := "INSUFFICIENT_EVIDENCE"
  const MAX_ITEMS := 8
  const MAX_CHARS := 1200

  /** One extracted entry; the text of a rule or an exception is its quote. */
  datatype Item = Item(alias: string, quote: string, text: string)

  function FactItems(facts: seq<Fact>): seq<Item> {
    seq(|facts|, i requires 0 <= i < |facts| => Item(facts[i].alias, facts[i].quote, facts[i].text))
  }

  function ClauseItems(clauses: seq<Clause>): seq<Item> {
    seq(|clauses|, i requires 0 <= i < |clauses| => Item(clauses[i].alias, clauses[i].quote, clauses[i].quote))
  }

  function Items(p: Payload): seq<Item> {
    FactItems(p.facts) + ClauseItems(p.rules) + ClauseItems(p.exceptions)
  }

  // ---------- what an acceptable extraction is ----------

  predicate AliasOk(item: Item, sources: map<string, string>) {
    ValidMarker(item.alias) && item.alias in sources
  }

  predicate QuoteOk(item: Item, sources: map<string, string>) {
    item.alias in sources && !Blank(item.quote) && |item.quote| <= 1200 && Contains(sources[item.alias], item.quote)
  }

  predicate TextOk(item: Item) {
    !Blank(item.text) && |item.text| <= 1200 && !Contains(item.text, "[[")
  }

  predicate ItemOk(item: Item, sources: map<string, string>) {
    AliasOk(item, sources) && QuoteOk(item, sources) && TextOk(item)
  }

  predicate GroupsFit(p: Payload) {
    |p.facts| <= 8 && |p.rules| <= 8 && |p.exceptions| <= 8
  }

  predicate AcceptableRefusal(p: Payload) {
    p.decision == "REFUSAL" && Items(p) == [] && p.refusalReason == Some("INSUFFICIENT_EVIDENCE")
  }

  ghost predicate AcceptableAnswer(p: Payload, evidence: seq<Evidence>) {
    && p.decision == "ANSWER" && p.refusalReason == None && GroupsFit(p)
    && Distinct(Ids(evidence))
    && Items(p) != []
    && forall i :: 0 <= i < |Items(p)| ==> ItemOk(Items(p)[i], Sources(evidence))
  }

  /** The content of each source; a later source replaces an earlier one of the same id. */
  function Sources(evidence: seq<Evidence>): map<string, string>
    decreases |evidence|
  {
    if evidence == [] then map[]
    else Sources(evidence[..|evidence| - 1])[evidence[|evidence| - 1].id := evidence[|evidence| - 1].content]
  }

  function Ids(evidence: seq<Evidence>): seq<string> {
    seq(|evidence|, i requires 0 <= i < |evidence| => evidence[i].id)
  }

  /** Comparing sizes detects a repeated id. */
  lemma {:induction false} SourcesSize(evidence: seq<Evidence>)
    ensures |Sources(evidence)| <= |evidence|
    ensures |Sources(evidence)| == |evidence| <==> Distinct(Ids(evidence))
    ensures forall x :: x in Sources(evidence) <==> x in Ids(evidence)
    decreases |evidence|
  {
    if evidence != [] {
      var init, last := evidence[..|evidence| - 1], evidence[|evidence| - 1];
      SourcesSize(init);
      assert Ids(evidence) == Ids(init) + [last.id];
      assert Sources(evidence).Keys == Sources(init).Keys + {last.id};
      DistinctLast(Ids(init), last.id);
      if last.id in Sources(init) { assert Sources(evidence).Keys == Sources(init).Keys; }
      else { assert |Sources(evidence).Keys| == |Sources(init).Keys| + 1; }
      assert |Sources(evidence)| == |Sources(evidence).Keys| && |Sources(init)| == |Sources(init).Keys|;
    }
  }

  lemma DistinctLast(ids: seq<string>, id: string)
    ensures Distinct(ids + [id]) <==> Distinct(ids) && id !in ids
  {
    if Distinct(ids + [id]) {
      forall i | 0 <= i < |ids| ensures ids[i] != id { assert (ids + [id])[i] != (ids + [id])[|ids|]; }
      forall i, j | 0 <= i < j < |ids| ensures ids[i] != ids[j] { assert (ids + [id])[i] != (ids + [id])[j]; }
    }
  }

  // ---------- paragraphs ----------

  /** Each alias once, in the order of first use. */
  function FirstUses(items: seq<Item>): seq<string>
    decreases |items|
  {
    if items == [] then []
    else
      var before := FirstUses(items[..|items| - 1]);
      if items[|items| - 1].alias in before then before else before + [items[|items| - 1].alias]
  }

  /** The trimmed texts extracted from one source, in order. */
  function TextsOf(items: seq<Item>, alias: string): seq<string>
    decreases |items|
  {
    if items == [] then []
    else
      var before := TextsOf(items[..|items| - 1], alias);
      if items[|items| - 1].alias == alias then before + [Strip(items[|items| - 1].text)] else before
  }

  function Paragraphs(items: seq<Item>): seq<Block> {
    seq(|FirstUses(items)|, i requires 0 <= i < |FirstUses(items)| =>
          Block(Join(" ", TextsOf(items, FirstUses(items)[i])), FirstUses(items)[i]))
  }

  lemma {:induction false} FirstUsesAre(items: seq<Item>)
    ensures Distinct(FirstUses(items))
    ensures forall a :: a in FirstUses(items) <==> exists i :: 0 <= i < |items| && items[i].alias == a
    decreases |items|
  {
    if items != [] {
      var init, last := items[..|items| - 1], items[|items| - 1];
      FirstUsesAre(init);
      assert items == init + [last];
      forall a ensures a in FirstUses(items) <==> exists i :: 0 <= i < |items| && items[i].alias == a {
        if a in FirstUses(init) {
          var i :| 0 <= i < |init| && init[i].alias == a;
          assert items[i].alias == a;
        }
        if i :| 0 <= i < |items| && items[i].alias == a {
          if i < |init| { assert init[i].alias == a; }
        }
        if a == last.alias { assert items[|items| - 1].alias == a; }
      }
    }
  }

  lemma {:induction false} TextsAre(items: seq<Item>, alias: string)
    ensures forall t :: t in TextsOf(items, alias) <==> exists i :: 0 <= i < |items| && items[i].alias == alias && Strip(items[i].text) == t
    decreases |items|
  {
    if items != [] {
      var init, last := items[..|items| - 1], items[|items| - 1];
      TextsAre(init, alias);
      assert items == init + [last];
      forall t ensures t in TextsOf(items, alias) <==> exists i :: 0 <= i < |items| && items[i].alias == alias && Strip(items[i].text) == t {
        if t in TextsOf(init, alias) {
          var i :| 0 <= i < |init| && init[i].alias == alias && Strip(init[i].text) == t;
          assert items[i].alias == alias && Strip(items[i].text) == t;
        }
        if i :| 0 <= i < |items| && items[i].alias == alias && Strip(items[i].text) == t {
          if i < |init| { assert init[i].alias == alias && Strip(init[i].text) == t; }
        }
        if last.alias == alias && Strip(last.text) == t { assert items[|items| - 1].alias == alias && Strip(items[|items| - 1].text) == t; }
      }
    }
  }

  /** The texts of a source stand in the order of extraction, each entry of the source once. */
  lemma {:induction false} TextsInOrder(items: seq<Item>, alias: string) returns (at: seq<nat>)
    ensures |at| == |TextsOf(items, alias)|
    ensures forall k :: 0 <= k < |at| ==> at[k] < |items| && items[at[k]].alias == alias && TextsOf(items, alias)[k] == Strip(items[at[k]].text)
    ensures forall k, l :: 0 <= k < l < |at| ==> at[k] < at[l]
    ensures forall i :: 0 <= i < |items| && items[i].alias == alias ==> i in at
    decreases |items|
  {
    hide Strip;
    if items == [] {
      at := [];
    } else {
      var init, last := items[..|items| - 1], items[|items| - 1];
      at := TextsInOrder(init, alias);
      assert forall i :: 0 <= i < |init| ==> init[i] == items[i];
      if last.alias == alias {
        var before := at;
        at := before + [|init|];
        assert at[|before|] == |init| && items[|init|] == last;
        forall i | 0 <= i < |items| && items[i].alias == alias ensures i in at {
          if i < |init| { assert i in before; }
        }
      }
    }
  }

  /** Of two cited sources, the one cited first is used before the other. */
  lemma {:induction false} FirstUsesInOrder(items: seq<Item>, k: nat, l: nat) returns (i: nat)
    requires k < l < |FirstUses(items)|
    ensures i < |items| && items[i].alias == FirstUses(items)[k]
    ensures forall j :: 0 <= j <= i ==> items[j].alias != FirstUses(items)[l]
    decreases |items|
  {
    var init, last := items[..|items| - 1], items[|items| - 1];
    if l < |FirstUses(init)| {
      i := FirstUsesInOrder(init, k, l);
    } else {
      FirstUsesAre(init);
      assert FirstUses(init)[k] in FirstUses(init);
      i :| 0 <= i < |init| && init[i].alias == FirstUses(init)[k];
      forall j | 0 <= j <= i ensures items[j].alias != last.alias { assert init[j].alias in FirstUses(init); }
    }
  }

  /** The entries are the facts, the rules and the exceptions, in this order; a rule and an exception print their quote. */
  lemma ItemsAre(p: Payload)
    ensures var items, f, r := Items(p), |p.facts|, |p.rules|;
            && |items| == f + r + |p.exceptions|
            && (forall i :: 0 <= i < f ==> items[i] == Item(p.facts[i].alias, p.facts[i].quote, p.facts[i].text))
            && (forall i :: 0 <= i < r ==> items[f + i] == Item(p.rules[i].alias, p.rules[i].quote, p.rules[i].quote))
            && (forall i :: 0 <= i < |p.exceptions| ==>
                  items[f + r + i] == Item(p.exceptions[i].alias, p.exceptions[i].quote, p.exceptions[i].quote))
  {
  }

  /** One paragraph per cited source: its texts, joined by single spaces. */
  lemma ParagraphsAre(items: seq<Item>)
    ensures |Paragraphs(items)| == |FirstUses(items)|
    ensures forall k :: 0 <= k < |Paragraphs(items)| ==>
              Paragraphs(items)[k].alias == FirstUses(items)[k] && Paragraphs(items)[k].body == Join(" ", TextsOf(items, FirstUses(items)[k]))
  {
    hide FirstUses, TextsOf, Join;
  }

  /** Why an entry is refused: its source first, then its quote, then its text. */
  function Refused(item: Item, sources: map<string, string>): ExtractionError {
    if !AliasOk(item, sources) then SourceAlias else if !QuoteOk(item, sources) then SourceQuote else Contract
  }

  predicate FirstRefused(items: seq<Item>, sources: map<string, string>, i: nat)
    requires i < |items|
  {
    !ItemOk(items[i], sources) && forall j :: 0 <= j < i ==> ItemOk(items[j], sources)
  }

  method CheckItem(item: Item, sources: map<string, string>) returns (r: Result<string, ExtractionError>)
    ensures r == if ItemOk(item, sources) then Success(Strip(item.text)) else Failure(Refused(item, sources))
  {
    if !ValidMarker(item.alias) || item.alias !in sources { return Failure(SourceAlias); }
    if Blank(item.quote) || |item.quote| > MAX_CHARS || !Contains(sources[item.alias], item.quote) { return Failure(SourceQuote); }
    if Blank(item.text) || |item.text| > MAX_CHARS || Contains(item.text, "[[") { return Failure(Contract); }
    return Success(Strip(item.text));
  }

  lemma {:induction false} JoinClean(parts: seq<string>)
    requires forall i :: 0 <= i < |parts| ==> !Contains(parts[i], "[[")
    ensures !Contains(Join(" ", parts), "[[")
  {
    hide Contains, OccursAt;
    var s := Join(" ", parts);
    if Contains(s, "[[") {
      var at := Occurrence(s, "[[");
      PairAt(s, '[', at);
      if |parts| > 1 {
        var rest := Join(" ", parts[1..]);
        JoinClean(parts[1..]);
        assert s[|parts[0]|] == ' ';
        if at < |parts[0]| { PairAt(parts[0], '[', at); OccursIn(parts[0], "[[", at); }
        else { PairAt(rest, '[', at - |parts[0]| - 1); OccursIn(rest, "[[", at - |parts[0]| - 1); }
      }
    }
  }

  /** Nothing an accepted extraction prints as text can be read as a marker. */
  lemma ParagraphsAreClean(items: seq<Item>)
    requires forall i :: 0 <= i < |items| ==> TextOk(items[i])
    ensures Clean(Paragraphs(items))
  {
    hide Contains, TextsOf, FirstUses, Join, Blank, Strip;
    forall k | 0 <= k < |Paragraphs(items)| ensures !Contains(Paragraphs(items)[k].body, "[[") {
      var texts := TextsOf(items, FirstUses(items)[k]);
      TextsAre(items, FirstUses(items)[k]);
      forall j | 0 <= j < |texts| ensures !Contains(texts[j], "[[") {
        assert texts[j] in texts;
        var i :| 0 <= i < |items| && items[i].alias == FirstUses(items)[k] && Strip(items[i].text) == texts[j];
        StripInside(items[i].text);
        if Contains(texts[j], "[[") { ContainsTransitive(items[i].text, texts[j], "[["); }
      }
      JoinClean(texts);
    }
  }

  lemma RenderedIsValid(items: seq<Item>, sources: map<string, string>)
    requires forall i :: 0 <= i < |items| ==> ItemOk(items[i], sources)
    ensures StructurallyValid(Print(Paragraphs(items)), FirstUses(items), sources.Keys) <==> items != []
  {
    hide Contains, TextsOf, FirstUses, Join, Blank, Strip, Print, Markers, StructurallyValid, ValidMarker, TextOk, QuoteOk, Clean, Distinct;
    FirstUsesAre(items);
    ParagraphsAreClean(items);
    var blocks := Paragraphs(items);
    assert Aliases(blocks) == FirstUses(items);
    forall k | 0 <= k < |blocks| ensures ValidMarker(blocks[k].alias) && blocks[k].alias in sources {
      assert blocks[k].alias in FirstUses(items);
      var i :| 0 <= i < |items| && items[i].alias == blocks[k].alias;
      assert ItemOk(items[i], sources);
    }
    PrintedIsValid(blocks, sources.Keys);
    if items != [] { assert items[0].alias in FirstUses(items); }
    if blocks != [] { assert blocks[0].alias in FirstUses(items); }
  }

  lemma GroupStep(items: seq<Item>, i: nat)
    requires i < |items|
    ensures FirstUses(items[..i + 1]) ==
            if items[i].alias in FirstUses(items[..i]) then FirstUses(items[..i]) else FirstUses(items[..i]) + [items[i].alias]
    ensures forall a :: TextsOf(items[..i + 1], a) ==
                        if items[i].alias == a then TextsOf(items[..i], a) + [Strip(items[i].text)] else TextsOf(items[..i], a)
  {
    assert items[..i + 1][..i] == items[..i] && items[..i + 1][i] == items[i];
  }

  /** The dictionary of the loop: texts per source, and the sources in insertion order. */
  ghost predicate Grouped(items: seq<Item>, aliases: seq<string>, byAlias: map<string, seq<string>>) {
    aliases == FirstUses(items) && (forall a :: a in aliases <==> a in byAlias)
    && forall a :: TextsOf(items, a) == if a in byAlias then byAlias[a] else []
  }

  method GroupTexts(items: seq<Item>, sources: map<string, string>)
    returns (r: Result<(seq<string>, map<string, seq<string>>), ExtractionError>)
    ensures r.Success? <==> forall i :: 0 <= i < |items| ==> ItemOk(items[i], sources)
    ensures r.Success? ==> Grouped(items, r.value.0, r.value.1)
    ensures r.Failure? ==> exists i :: 0 <= i < |items| && FirstRefused(items, sources, i) && r.error == Refused(items[i], sources)
  {
    hide AliasOk, QuoteOk, TextOk, TextsOf, FirstUses, Strip, Grouped;
    var aliases: seq<string>, byAlias: map<string, seq<string>> := [], map[];
    assert Grouped(items[..0], aliases, byAlias) by { NothingGrouped(items); }
    for i := 0 to |items|
      invariant forall k :: 0 <= k < i ==> ItemOk(items[k], sources)
      invariant Grouped(items[..i], aliases, byAlias)
    {
      var text := CheckItem(items[i], sources);
      if text.Failure? {
        assert !ItemOk(items[i], sources);
        assert FirstRefused(items, sources, i);
        return Failure(text.error);
      }
      GroupedStep(items, i, aliases, byAlias);
      var alias := items[i].alias;
      if alias in byAlias {
        byAlias := byAlias[alias := byAlias[alias] + [text.value]];
      } else {
        aliases, byAlias := aliases + [alias], byAlias[alias := [text.value]];
      }
    }
    assert items[..|items|] == items;
    return Success((aliases, byAlias));
  }

  lemma GroupedStep(items: seq<Item>, i: nat, aliases: seq<string>, byAlias: map<string, seq<string>>)
    requires i < |items| && Grouped(items[..i], aliases, byAlias)
    ensures var alias, text := items[i].alias, Strip(items[i].text);
            && (alias in byAlias ==> Grouped(items[..i + 1], aliases, byAlias[alias := byAlias[alias] + [text]]))
            && (alias !in byAlias ==> Grouped(items[..i + 1], aliases + [alias], byAlias[alias := [text]]))
  {
    hide TextsOf, FirstUses, Strip;
    GroupStep(items, i);
  }

  lemma NothingGrouped(items: seq<Item>)
    ensures Grouped(items[..0], [], map[])
  {
  }

  lemma GroupedPrints(items: seq<Item>, aliases: seq<string>, byAlias: map<string, seq<string>>)
    requires Grouped(items, aliases, byAlias)
    ensures forall k :: 0 <= k < |aliases| ==> aliases[k] in byAlias
    ensures Paragraphs(items) == seq(|aliases|, k requires 0 <= k < |aliases| && aliases[k] in byAlias =>
                                       Block(Join(" ", byAlias[aliases[k]]), aliases[k]))
  {
    hide TextsOf, FirstUses, Join;
    assert forall k :: 0 <= k < |aliases| ==> aliases[k] in aliases;
  }

  /** An extraction is rendered exactly when it is an acceptable refusal or an acceptable answer, and the
      closing structural check rejects nothing but an answer without entries: the markers read back from the answer
      are the cited ids in order. */
  method RenderResult(p: Payload, evidence: seq<Evidence>) returns (r: Result<Rendering, ExtractionError>)
    ensures r.Success? <==> AcceptableRefusal(p) || AcceptableAnswer(p, evidence)
    ensures r == Success(Refusal) <==> AcceptableRefusal(p)
    ensures r.Success? && r.value.Answer? ==>
              && r.value == Answer(Print(Paragraphs(Items(p))), FirstUses(Items(p)))
              && Markers(r.value.text, 0) == Success(r.value.cited) && Distinct(r.value.cited) && r.value.cited != []
    ensures r == Failure(Structure) <==>
              Items(p) == [] && p.decision == "ANSWER" && p.refusalReason == None && Distinct(Ids(evidence))
    ensures r == Failure(SourceAlias) || r == Failure(SourceQuote) ==>
              exists i :: 0 <= i < |Items(p)| && FirstRefused(Items(p), Sources(evidence), i) && r.error == Refused(Items(p)[i], Sources(evidence))
  {
    hide ItemOk, FirstRefused, AliasOk, QuoteOk, Items, Markers, Print, Paragraphs, FirstUses, TextsOf, Sources, Contains, Join, Strip, Blank, Grouped, Distinct;
    if |p.facts| > MAX_ITEMS || |p.rules| > MAX_ITEMS || |p.exceptions| > MAX_ITEMS {
      EmptyFits(p);
      return Failure(Contract);
    }
    var items := Items(p);
    if p.decision == "REFUSAL" {
      if items != [] || p.refusalReason != Some(INSUFFICIENT) { return Failure(Contract); }
      return Success(Refusal);
    }
    if p.decision != "ANSWER" || p.refusalReason != None { return Failure(Contract); }
    SourcesSize(evidence);
    var sources := Sources(evidence);
    if |sources| != |evidence| { return Failure(Contract); }
    var grouped := GroupTexts(items, sources);
    if grouped.Failure? { return Failure(grouped.error); }
    var aliases, byAlias := grouped.value.0, grouped.value.1;
    GroupedPrints(items, aliases, byAlias);
    assert aliases == FirstUses(items) by { GroupedAliases(items, aliases, byAlias); }
    var text := Print(seq(|aliases|, k requires 0 <= k < |aliases| && aliases[k] in byAlias =>
                            Block(Join(" ", byAlias[aliases[k]]), aliases[k])));
    RenderedIsValid(items, sources);
    if !StructurallyValid(text, aliases, sources.Keys) { return Failure(Structure); }
    return Success(Answer(text, aliases));
  }

  lemma GroupedAliases(items: seq<Item>, aliases: seq<string>, byAlias: map<string, seq<string>>)
    requires Grouped(items, aliases, byAlias)
    ensures aliases == FirstUses(items)
  {
  }

  lemma EmptyFits(p: Payload)
    ensures AcceptableRefusal(p) || Items(p) == [] ==> GroupsFit(p)
  {
    assert |Items(p)| == |p.facts| + |p.rules| + |p.exceptions|;
  }

  /** Every extracted text, trimmed, is printed in one piece in the paragraph of its source. */
  lemma EveryTextIsPrinted(items: seq<Item>, i: nat) returns (k: nat)
    requires i < |items|
    ensures k < |Paragraphs(items)| && Paragraphs(items)[k].alias == items[i].alias
    ensures Contains(Paragraphs(items)[k].body, Strip(items[i].text))
  {
    hide FirstUses, TextsOf, Join, Contains, Strip;
    FirstUsesAre(items);
    assert items[i].alias in FirstUses(items);
    k :| 0 <= k < |FirstUses(items)| && FirstUses(items)[k] == items[i].alias;
    var texts := TextsOf(items, items[i].alias);
    TextsAre(items, items[i].alias);
    assert Strip(items[i].text) in texts;
    var j :| 0 <= j < |texts| && texts[j] == Strip(items[i].text);
    JoinContains(" ", texts, j);
  }
}
