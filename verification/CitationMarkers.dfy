/** Citation markers: the renderer prints every cited source as a text followed by " [[E<n>]]", and the
    public parser reads the markers back out of the finished answer. */
module CitationMarkers {
  import opened Wrappers
  import opened Text

  /** `E[1-9][0-9]*` */
  predicate ValidMarker(m: string) {
    |m| >= 2 && m[0] == 'E' && '1' <= m[1] <= '9' && forall i :: 2 <= i < |m| ==> '0' <= m[i] <= '9'
  }

  // ---------- a marker is the letter E and the numeral of a positive number ----------

  const DIGITS := "0123456789"

  function Numeral(n: nat): (s: string)
    ensures s != ""
  {
    if n < 10 then [DIGITS[n]] else Numeral(n / 10) + [DIGITS[n % 10]]
  }

  lemma {:induction false} NumeralIsValid(n: nat)
    ensures n > 0 ==> ValidMarker("E" + Numeral(n))
  {
    if n >= 10 {
      NumeralIsValid(n / 10);
      var m := "E" + Numeral(n / 10);
      assert "E" + Numeral(n) == m + [DIGITS[n % 10]];
    }
  }

  lemma {:induction false} ValidIsNumeral(m: string) returns (n: nat)
    requires ValidMarker(m)
    ensures n > 0 && m == "E" + Numeral(n)
    decreases |m|
  {
    var last := m[|m| - 1];
    var digit := last as int - '0' as int;
    assert DIGITS[digit] == last;
    if |m| == 2 {
      n := digit;
      assert m == "E" + [last];
    } else {
      var front := m[..|m| - 1];
      var tens := ValidIsNumeral(front);
      n := 10 * tens + digit;
      assert m == front + [last];
      assert n / 10 == tens && n % 10 == digit;
    }
  }

  /** The markers are E1, E2, E3 and so on. */
  lemma MarkerMeans(m: string)
    ensures ValidMarker(m) <==> exists n: nat :: n > 0 && m == "E" + Numeral(n)
  {
    if ValidMarker(m) { var n := ValidIsNumeral(m); }
    forall n: nat | n > 0 && m == "E" + Numeral(n) ensures ValidMarker(m) { NumeralIsValid(n); }
  }

  datatype MarkerError = StructuralError

  // ---------- the parser ----------

  /** One marker in front of what the rest of the answer gives. */
  function Then(marker: string, rest: Result<seq<string>, MarkerError>): Result<seq<string>, MarkerError> {
    match rest
    case Failure(e) => Failure(e)
    case Success(markers) => Success([marker] + markers)
  }

  function Markers(answer: string, cursor: nat): Result<seq<string>, MarkerError>
    decreases |answer| - cursor
  {
    var start := Find(answer, "[[", cursor);
    if start < 0 then Success([])
    else
      var end := Find(answer, "]]", start + 2);
      if end < 0 || !ValidMarker(answer[start + 2..end]) then Failure(StructuralError)
      else Then(answer[start + 2..end], Markers(answer, end + 2))
  }

  /** What the loop has collected, in front of what the rest of the answer gives. */
  function After(markers: seq<string>, rest: Result<seq<string>, MarkerError>): Result<seq<string>, MarkerError> {
    match rest
    case Failure(e) => Failure(e)
    case Success(more) => Success(markers + more)
  }

  lemma AfterThen(markers: seq<string>, marker: string, rest: Result<seq<string>, MarkerError>)
    ensures After(markers, Then(marker, rest)) == After(markers + [marker], rest)
  {
    if rest.Success? { assert markers + ([marker] + rest.value) == markers + [marker] + rest.value; }
  }

  lemma NoMarker(answer: string, cursor: nat)
    requires Find(answer, "[[", cursor) < 0
    ensures Markers(answer, cursor) == Success([])
  {
  }

  lemma OneMarker(answer: string, cursor: nat, start: nat, end: nat)
    requires start == Find(answer, "[[", cursor) && end == Find(answer, "]]", start + 2)
    requires ValidMarker(answer[start + 2..end])
    ensures Markers(answer, cursor) == Then(answer[start + 2..end], Markers(answer, end + 2))
  {
  }

  method ParsePublicMarkers(answer: string) returns (r: Result<seq<string>, MarkerError>)
    ensures r == Markers(answer, 0)
  {
    hide Find, ValidMarker, OccursAt;
    var markers: seq<string> := [];
    var cursor := 0;
    assert Markers(answer, 0) == After([], Markers(answer, 0)) by {
      hide Markers;
      if Markers(answer, 0).Success? { assert [] + Markers(answer, 0).value == Markers(answer, 0).value; }
    }
    while true
      invariant cursor <= |answer|
      invariant Markers(answer, 0) == After(markers, Markers(answer, cursor))
      decreases |answer| - cursor
    {
      var start := Find(answer, "[[", cursor);
      if start < 0 {
        assert Markers(answer, cursor) == Success([]);
        assert markers + [] == markers;
        return Success(markers);
      }
      FindFits(answer, "[[", cursor);
      var end := Find(answer, "]]", start + 2);
      if end < 0 { return Failure(StructuralError); }
      FindFits(answer, "]]", start + 2);
      var marker := answer[start + 2..end];
      if !ValidMarker(marker) { return Failure(StructuralError); }
      AfterThen(markers, marker, Markers(answer, end + 2));
      markers := markers + [marker];
      cursor := end + 2;
    }
  }

  /** Text in front of the cursor does not change what is read. */
  lemma {:induction false} MarkersShift(x: string, y: string, cursor: nat)
    ensures Markers(x + y, |x| + cursor) == Markers(y, cursor)
    decreases |y| - cursor
  {
    hide Find, ValidMarker, OccursAt;
    FindShift(x, y, "[[", cursor);
    var start := Find(y, "[[", cursor);
    if start >= 0 {
      FindFits(y, "[[", cursor);
      FindShift(x, y, "]]", start + 2);
      var end := Find(y, "]]", start + 2);
      if end >= 0 {
        FindFits(y, "]]", start + 2);
        assert (x + y)[|x| + start + 2..|x| + end] == y[start + 2..end];
        MarkersShift(x, y, end + 2);
      }
    }
  }

  // ---------- the printer ----------

  datatype Block = Block(body: string, alias: string)

  function Cite(b: Block): string { b.body + " [[" + b.alias + "]]" }

  /** Paragraphs joined by a blank line. */
  function Print(blocks: seq<Block>): string {
    Join("\n\n", Cited(blocks))
  }

  function Cited(blocks: seq<Block>): seq<string> {
    seq(|blocks|, i requires 0 <= i < |blocks| => Cite(blocks[i]))
  }

  function Aliases(blocks: seq<Block>): seq<string> {
    seq(|blocks|, i requires 0 <= i < |blocks| => blocks[i].alias)
  }

  /** The printed paragraphs as one run of cited blocks: each blank line belongs to the body after it. */
  function Flat(blocks: seq<Block>): string {
    if blocks == [] then "" else Cite(blocks[0]) + Flat(blocks[1..])
  }

  function Spaced(blocks: seq<Block>): seq<Block> {
    seq(|blocks|, i requires 0 <= i < |blocks| => if i == 0 then blocks[0] else blocks[i].(body := "\n\n" + blocks[i].body))
  }

  function AllSpaced(blocks: seq<Block>): seq<Block> {
    seq(|blocks|, i requires 0 <= i < |blocks| => blocks[i].(body := "\n\n" + blocks[i].body))
  }

  lemma {:induction false} FlatAllSpaced(blocks: seq<Block>)
    ensures Flat(AllSpaced(blocks)) == if blocks == [] then "" else "\n\n" + Print(blocks)
  {
    hide Print, Cite, AllSpaced;
    if blocks == [] {
      NothingSpaced();
    } else {
      FlatAllSpaced(blocks[1..]);
      AllSpacedCons(blocks);
      PrintCons(blocks);
    }
  }

  lemma NothingSpaced()
    ensures AllSpaced([]) == []
  {
  }

  lemma AllSpacedCons(blocks: seq<Block>)
    requires blocks != []
    ensures AllSpaced(blocks) != [] && AllSpaced(blocks)[1..] == AllSpaced(blocks[1..])
    ensures Cite(AllSpaced(blocks)[0]) == "\n\n" + Cite(blocks[0])
  {
  }

  lemma PrintCons(blocks: seq<Block>)
    requires blocks != []
    ensures Print(blocks) == Cite(blocks[0]) + if |blocks| == 1 then "" else "\n\n" + Print(blocks[1..])
  {
    hide Cite;
    assert Cited(blocks)[1..] == Cited(blocks[1..]);
    if |blocks| == 1 { assert Cite(blocks[0]) + "" == Cite(blocks[0]); }
  }

  lemma PrintIsFlat(blocks: seq<Block>)
    ensures Print(blocks) == Flat(Spaced(blocks))
  {
    if blocks != [] {
      FlatAllSpaced(blocks[1..]);
      assert Spaced(blocks)[1..] == AllSpaced(blocks[1..]);
      assert Cited(blocks)[1..] == Cited(blocks[1..]);
    }
  }

  // ---------- parsing one printed block ----------

  lemma ValidHasNoBrackets(text: string, from: nat, to: nat)
    requires from <= to <= |text| && ValidMarker(text[from..to])
    ensures forall i :: from <= i < to ==> text[i] != ']' && text[i] != ' '
  {
    forall i | from <= i < to ensures text[i] != ']' && text[i] != ' ' { assert text[i] == text[from..to][i - from]; }
  }

  lemma PairAt(s: string, c: char, i: int)
    ensures OccursAt(s, [c, c], i) <==> 0 <= i <= i + 2 <= |s| && s[i] == c && s[i + 1] == c
  {
    if 0 <= i <= i + 2 <= |s| { assert s[i..i + 2] == [s[i], s[i + 1]]; }
  }

  /** The only "[[" a clean block can show first is the one its marker opens. */
  lemma CleanStart(b: Block, tail: string)
    requires !Contains(b.body, "[[")
    ensures Find(Cite(b) + tail, "[[", 0) == |b.body| + 1
  {
    hide Find, Contains, OccursAt;
    var text, n := Cite(b) + tail, |b.body|;
    assert text[..n] == b.body && text[n] == ' ' && text[n + 1] == '[' && text[n + 2] == '[';
    forall i | 0 <= i < n + 1 ensures !OccursAt(text, "[[", i) {
      PairAt(text, '[', i);
      PairAt(b.body, '[', i);
      OccursIn(b.body, "[[", i);
    }
    PairAt(text, '[', n + 1);
    FindIs(text, "[[", 0, n + 1);
  }

  lemma CleanEnd(b: Block, tail: string)
    requires ValidMarker(b.alias)
    ensures Find(Cite(b) + tail, "]]", |b.body| + 3) == |b.body| + 3 + |b.alias|
    ensures (Cite(b) + tail)[|b.body| + 3..|b.body| + 3 + |b.alias|] == b.alias
  {
    hide Find, OccursAt;
    var text, n, m := Cite(b) + tail, |b.body|, |b.alias|;
    assert text[n + 3..n + 3 + m] == b.alias && text[n + 3 + m] == ']' && text[n + 4 + m] == ']';
    ValidHasNoBrackets(text, n + 3, n + 3 + m);
    forall i | n + 3 <= i < n + 3 + m ensures !OccursAt(text, "]]", i) { PairAt(text, ']', i); }
    PairAt(text, ']', n + 3 + m);
    FindIs(text, "]]", n + 3, n + 3 + m);
  }

  /** A block whose body holds no "[[" gives its alias, then whatever follows. */
  lemma CleanBlock(b: Block, tail: string)
    requires ValidMarker(b.alias) && !Contains(b.body, "[[")
    ensures Markers(Cite(b) + tail, 0) == Then(b.alias, Markers(tail, 0))
  {
    hide Find, Markers, Contains, OccursAt, ValidMarker, Then;
    var text, end := Cite(b) + tail, |b.body| + 3 + |b.alias|;
    CleanStart(b, tail);
    CleanEnd(b, tail);
    OneMarker(text, 0, |b.body| + 1, end);
    MarkersShift(Cite(b), tail, 0);
  }

  /** When a body holds "[[", the first marker read lies wholly inside the body. */
  lemma DirtyBlock(b: Block, tail: string) returns (end: nat)
    requires Contains(b.body, "[[") && Markers(Cite(b) + tail, 0).Success?
    ensures end + 2 <= |b.body|
    ensures Markers(Cite(b) + tail, end + 2).Success?
    ensures |Markers(Cite(b) + tail, 0).value| == 1 + |Markers(Cite(b) + tail, end + 2).value|
  {
    hide Find, OccursAt, Contains, ValidMarker;
    var text, n := Cite(b) + tail, |b.body|;
    assert text[..n] == b.body && text[n] == ' ';
    var at := Occurrence(b.body, "[[");
    PairAt(b.body, '[', at);
    assert text[at] == text[..n][at] && text[at + 1] == text[..n][at + 1];
    PairAt(text, '[', at);
    var start := Find(text, "[[", 0);
    FindFits(text, "[[", 0);
    assert start <= at;
    end := Find(text, "]]", start + 2);
    FindFits(text, "]]", start + 2);
    ValidHasNoBrackets(text, start + 2, end);
    PairAt(text, ']', end);
  }

  /** Any block that parses contributes at least one marker, and more than one when its body holds "[[". */
  lemma {:induction false} BlockMarkers(b: Block, tail: string)
    requires ValidMarker(b.alias) && Markers(Cite(b) + tail, 0).Success?
    ensures Markers(tail, 0).Success?
    ensures |Markers(Cite(b) + tail, 0).value| >= 1 + |Markers(tail, 0).value|
    ensures Contains(b.body, "[[") ==> |Markers(Cite(b) + tail, 0).value| > 1 + |Markers(tail, 0).value|
    decreases |b.body|
  {
    hide Find, OccursAt, Contains, ValidMarker, Markers;
    if !Contains(b.body, "[[") {
      CleanBlock(b, tail);
    } else {
      var text := Cite(b) + tail;
      var end := DirtyBlock(b, tail);
      var rest := Block(b.body[end + 2..], b.alias);
      assert text == b.body[..end + 2] + (Cite(rest) + tail);
      MarkersShift(b.body[..end + 2], Cite(rest) + tail, 0);
      BlockMarkers(rest, tail);
    }
  }

  predicate Clean(blocks: seq<Block>) {
    forall i :: 0 <= i < |blocks| ==> !Contains(blocks[i].body, "[[")
  }

  lemma {:induction false} FlatMarkers(blocks: seq<Block>)
    requires forall i :: 0 <= i < |blocks| ==> ValidMarker(blocks[i].alias)
    ensures Clean(blocks) ==> Markers(Flat(blocks), 0) == Success(Aliases(blocks))
    ensures Markers(Flat(blocks), 0).Success? ==> |Markers(Flat(blocks), 0).value| >= |blocks|
    ensures Markers(Flat(blocks), 0).Success? && !Clean(blocks) ==> |Markers(Flat(blocks), 0).value| > |blocks|
  {
    hide Find, OccursAt, Contains, ValidMarker, Markers, Cite;
    if blocks == [] {
      assert Markers("", 0) == Success([]) by { FindFits("", "[[", 0); NoMarker("", 0); }
    } else {
      var b, rest := blocks[0], blocks[1..];
      FlatMarkers(rest);
      if Markers(Flat(blocks), 0).Success? { BlockMarkers(b, Flat(rest)); }
      assert Clean(blocks) <==> !Contains(b.body, "[[") && Clean(rest) by { CleanCons(blocks); }
      if Clean(blocks) {
        CleanBlock(b, Flat(rest));
        assert Aliases(blocks) == [b.alias] + Aliases(rest);
      }
    }
  }

  lemma CleanCons(blocks: seq<Block>)
    requires blocks != []
    ensures Clean(blocks) <==> !Contains(blocks[0].body, "[[") && Clean(blocks[1..])
  {
    hide Contains;
    if !Contains(blocks[0].body, "[[") && Clean(blocks[1..]) {
      forall i | 0 <= i < |blocks| ensures !Contains(blocks[i].body, "[[") {
        if i > 0 { assert blocks[i] == blocks[1..][i - 1]; }
      }
    }
  }

  lemma SpacedContains(body: string)
    ensures Contains("\n\n" + body, "[[") <==> Contains(body, "[[")
  {
    hide Contains, OccursAt;
    var s := "\n\n" + body;
    if Contains(s, "[[") {
      var i := Occurrence(s, "[[");
      PairAt(s, '[', i);
      PairAt(body, '[', i - 2);
      OccursIn(body, "[[", i - 2);
    }
    if Contains(body, "[[") {
      var i := Occurrence(body, "[[");
      PairAt(body, '[', i);
      PairAt(s, '[', i + 2);
      OccursIn(s, "[[", i + 2);
    }
  }

  /** Parsing the markers of a printed answer returns exactly its cited ids in order, if and only if no
      printed body contains "[[". */
  lemma MarkersRoundTrip(blocks: seq<Block>)
    requires forall i :: 0 <= i < |blocks| ==> ValidMarker(blocks[i].alias)
    ensures Markers(Print(blocks), 0) == Success(Aliases(blocks)) <==> Clean(blocks)
  {
    hide Find, OccursAt, Contains, ValidMarker, Markers, Cite, Print, Flat;
    PrintIsFlat(blocks);
    var spaced := Spaced(blocks);
    assert forall i :: 0 <= i < |spaced| ==> spaced[i].alias == blocks[i].alias;
    FlatMarkers(spaced);
    forall i | 0 <= i < |blocks| ensures Contains(spaced[i].body, "[[") <==> Contains(blocks[i].body, "[[") {
      SpacedContains(blocks[i].body);
    }
    assert Aliases(spaced) == Aliases(blocks);
  }

  // ---------- the structural check of a finished answer ----------

  /** The answer is not blank and its markers are the cited ids, all of them distinct and available. */
  predicate StructurallyValid(text: string, cited: seq<string>, available: set<string>) {
    !Blank(text) && cited != [] && Markers(text, 0) == Success(cited) && Distinct(cited)
    && forall i :: 0 <= i < |cited| ==> cited[i] in available
  }

  lemma MarkedIsNotBlank(text: string)
    requires Markers(text, 0).Success? && Markers(text, 0).value != []
    ensures !Blank(text)
  {
    hide Find, OccursAt, ValidMarker;
    FindFits(text, "[[", 0);
    PairAt(text, '[', Find(text, "[[", 0));
    assert text[Find(text, "[[", 0)] == '[';
  }

  /** The structural check passes on a printed answer exactly when it is not empty, its cited ids are distinct and
      available, and no printed body holds "[[". */
  lemma PrintedIsValid(blocks: seq<Block>, available: set<string>)
    requires forall i :: 0 <= i < |blocks| ==> ValidMarker(blocks[i].alias)
    ensures StructurallyValid(Print(blocks), Aliases(blocks), available) <==>
            blocks != [] && Clean(blocks) && Distinct(Aliases(blocks)) && forall i :: 0 <= i < |blocks| ==> blocks[i].alias in available
  {
    hide Print, Clean, ValidMarker, Markers, Blank, Distinct;
    MarkersRoundTrip(blocks);
    assert forall i :: 0 <= i < |blocks| ==> Aliases(blocks)[i] == blocks[i].alias;
    if blocks != [] && Clean(blocks) { MarkedIsNotBlank(Print(blocks)); }
  }
}
