/** Page texts rebuilt from frozen, overlapping chunks: production ordinals and line numbers are recovered
    from complete page prefixes, and anything less than a complete prefix is refused. */
module FrozenRestore {
  import opened Wrappers
  import opened Sorting

  /** `checksumOk`: the stored checksum is the SHA-256 of the content. */
  datatype Chunk = Chunk(id: string, setId: string, pageStart: int, pageEnd: int, start: int, end: int,
                         content: string, checksumOk: bool)

  datatype Key = Key(setId: string, page: int)

  datatype Restored = Restored(chunk: Chunk, ordinal: nat, startLine: nat, endLine: nat)

  datatype Error = DuplicateIdentity | InvalidRange | UnobservedPrefix | InconsistentOverlap

  function KeyOf(c: Chunk): Key { Key(c.setId, c.pageStart) }

  function Newlines(s: string): nat
    decreases |s|
  {
    if s == "" then 0 else Newlines(s[..|s| - 1]) + (if s[|s| - 1] == '\n' then 1 else 0)
  }

  predicate RangeOk(c: Chunk) {
    c.pageStart == c.pageEnd && 0 <= c.start < c.end && |c.content| == c.end - c.start && c.checksumOk
  }

  function Breaks(s: string): set<int> {
    set i | 0 <= i < |s| && s[i] == '\n'
  }

  /** The positions of the line breaks are counted. */
  lemma {:induction false} NewlinesCount(s: string)
    ensures Newlines(s) == |Breaks(s)|
    decreases |s|
  {
    if s == "" {
      NoBreaks(s);
    } else {
      NewlinesCount(s[..|s| - 1]);
      assert Breaks(s) == Breaks(s[..|s| - 1]) + if s[|s| - 1] == '\n' then {|s| - 1} else {};
    }
  }

  lemma NoBreaks(s: string)
    requires '\n' !in s
    ensures Breaks(s) == {}
  {
  }

  /** Chunks belong together when they are of one set and one page; a usable chunk lies on one page, holds exactly the
      characters between its offsets, at least one, and matches its checksum. */
  lemma ChunkMeans(a: Chunk, b: Chunk)
    ensures KeyOf(a) == KeyOf(b) <==> (a.setId, a.pageStart) == (b.setId, b.pageStart)
    ensures RangeOk(a) <==> a.checksumOk && a.pageEnd == a.pageStart && a.start >= 0 && |a.content| > 0 && a.end == a.start + |a.content|
  {
  }

  // ---------- the order in which chunks are visited ----------

  predicate ChunkLe(a: Chunk, b: Chunk) {
    if a.setId != b.setId then StringLe(a.setId, b.setId)
    else if a.pageStart != b.pageStart then a.pageStart < b.pageStart
    else if a.start != b.start then a.start < b.start
    else a.end <= b.end
  }

  lemma ChunkLeIsTotalOrder()
    ensures TotalOrder(ChunkLe)
  {
    forall a, b ensures ChunkLe(a, b) || ChunkLe(b, a) { StringLeTotal(a.setId, b.setId); }
    forall a, b, c | ChunkLe(a, b) && ChunkLe(b, c) ensures ChunkLe(a, c) {
      if a.setId != b.setId && b.setId != c.setId { StringLeTransitive(a.setId, b.setId, c.setId); }
      StringLeTotal(a.setId, b.setId);
    }
  }

  /** Sets are visited by name, in a set the pages, on a page the starts, and of equal starts the shorter chunk first. */
  lemma VisitOrder(a: Chunk, b: Chunk)
    ensures a.setId != b.setId ==> (ChunkLe(a, b) <==> StringLe(a.setId, b.setId))
    ensures a.setId == b.setId && a.pageStart < b.pageStart ==> ChunkLe(a, b) && !ChunkLe(b, a)
    ensures KeyOf(a) == KeyOf(b) && a.start < b.start ==> ChunkLe(a, b) && !ChunkLe(b, a)
    ensures KeyOf(a) == KeyOf(b) && a.start == b.start ==> (ChunkLe(a, b) <==> a.end <= b.end)
  {
  }

  // ---------- what makes chunks restorable ----------

  /** Every chunk is the slice of its page's text at its offsets. */
  ghost predicate Slices(chunks: seq<Chunk>, texts: map<Key, string>) {
    forall i :: 0 <= i < |chunks| ==> SliceOf(chunks[i], texts)
  }

  predicate SliceOf(c: Chunk, texts: map<Key, string>) {
    KeyOf(c) in texts && 0 <= c.start <= c.end <= |texts[KeyOf(c)]| && texts[KeyOf(c)][c.start..c.end] == c.content
  }

  ghost predicate Covered(chunks: seq<Chunk>, key: Key, q: int) {
    exists i :: 0 <= i < |chunks| && KeyOf(chunks[i]) == key && chunks[i].start <= q < chunks[i].end
  }

  /** On every page the chunks cover a prefix without gaps. */
  ghost predicate Gapless(chunks: seq<Chunk>) {
    forall i, q :: 0 <= i < |chunks| && 0 <= q < chunks[i].start ==> Covered(chunks, KeyOf(chunks[i]), q)
  }

  predicate DistinctIds(chunks: seq<Chunk>) {
    forall i, j :: 0 <= i < j < |chunks| ==> chunks[i].id != chunks[j].id
  }

  ghost predicate Restorable(chunks: seq<Chunk>, texts: map<Key, string>) {
    DistinctIds(chunks) && (forall i :: 0 <= i < |chunks| ==> RangeOk(chunks[i])) && Gapless(chunks) && Slices(chunks, texts)
  }

  /** The rebuilt pages: slices of them are the chunks, and every position of them is covered by a chunk. */
  ghost predicate Rebuilt(chunks: seq<Chunk>, pages: map<Key, string>) {
    && Slices(chunks, pages)
    && forall key, q :: key in pages && 0 <= q < |pages[key]| ==> Covered(chunks, key, q)
  }

  /** A rebuilt page is a prefix of every text the chunks are slices of; so it is the only text of its length. */
  lemma RebuiltIsPrefix(chunks: seq<Chunk>, pages: map<Key, string>, texts: map<Key, string>, key: Key)
    requires Rebuilt(chunks, pages) && Slices(chunks, texts) && key in pages && key in texts
    ensures |pages[key]| <= |texts[key]| && pages[key] == texts[key][..|pages[key]|]
  {
    var page, text := pages[key], texts[key];
    forall q | 0 <= q < |page| ensures q < |text| && page[q] == text[q] {
      assert Covered(chunks, key, q);
      var i :| 0 <= i < |chunks| && KeyOf(chunks[i]) == key && chunks[i].start <= q < chunks[i].end;
      var c := chunks[i];
      assert SliceOf(c, pages) && SliceOf(c, texts);
      assert page[q] == c.content[q - c.start] && text[q] == c.content[q - c.start];
    }
    if page != "" {
      var last := |page| - 1;
      assert Covered(chunks, key, last);
      var i :| 0 <= i < |chunks| && KeyOf(chunks[i]) == key && chunks[i].start <= last < chunks[i].end;
      assert SliceOf(chunks[i], texts);
    }
  }

  // ---------- the restoring loop ----------

  function OrdinalOf(chunks: seq<Chunk>, setId: string): nat
    decreases |chunks|
  {
    if chunks == [] then 0
    else OrdinalOf(chunks[..|chunks| - 1], setId) + (if chunks[|chunks| - 1].setId == setId then 1 else 0)
  }

  /** Entry `i` carries the count of its set's earlier chunks and the line numbers counted in the given pages. */
  predicate Placed(chunks: seq<Chunk>, pages: map<Key, string>, i: nat, r: Restored)
    requires i < |chunks|
  {
    var c := chunks[i];
    && r.chunk == c && r.ordinal == OrdinalOf(chunks[..i], c.setId)
    && SliceOf(c, pages)
    && r.startLine == Newlines(pages[KeyOf(c)][..c.start]) + 1
    && r.endLine == Newlines(pages[KeyOf(c)][..c.end]) + 1
  }

  method FrozenChunkMetadata(chunks: seq<Chunk>) returns (r: Result<seq<Restored>, Error>, pages: map<Key, string>)
    ensures r.Success? <==> exists texts :: Restorable(chunks, texts)
    ensures r.Success? ==>
              && |r.value| == |chunks| && Rebuilt(Sort(ChunkLe, chunks), pages)
              && forall i :: 0 <= i < |chunks| ==> i < |Sort(ChunkLe, chunks)| && Placed(Sort(ChunkLe, chunks), pages, i, r.value[i])
    ensures r == Failure(DuplicateIdentity) <==> !DistinctIds(chunks)
    ensures r == Failure(InvalidRange) ==> exists i :: 0 <= i < |chunks| && !RangeOk(chunks[i])
    ensures r == Failure(UnobservedPrefix) ==> !Gapless(chunks)
    ensures r == Failure(InconsistentOverlap) ==> !exists texts :: Slices(chunks, texts)
  {
    hide Restorable, Sort, Rebuilt, Newlines, OrdinalOf, Placed, SliceOf, Gapless, Slices, DistinctIds;
    pages := map[];
    var distinct := CheckDistinct(chunks);
    if !distinct {
      forall texts ensures !Restorable(chunks, texts) { RestorableIsDistinct(chunks, texts); }
      return Failure(DuplicateIdentity), pages;
    }
    var ordered := Sort(ChunkLe, chunks);
    SortPermutes(ChunkLe, chunks);
    var ordinals: map<string, nat> := map[];
    var restored: seq<Restored> := [];
    NothingRebuilt();
    assert ordered[..0] == [];
    for i := 0 to |ordered|
      invariant |restored| == i && Rebuilt(ordered[..i], pages)
      invariant forall k :: 0 <= k < i ==> RangeOk(ordered[k])
      invariant forall k :: 0 <= k < i ==> Placed(ordered, pages, k, restored[k])
      invariant forall s :: (if s in ordinals then ordinals[s] else 0) == OrdinalOf(ordered[..i], s)
      invariant forall key :: key in pages ==> exists k :: 0 <= k < i && KeyOf(ordered[k]) == key
    {
      var c := ordered[i];
      if !RangeOk(c) {
        forall texts ensures !Restorable(chunks, texts) { RestorableIsNotRefused(chunks, texts, pages, i); }
        var j := SortedMember(chunks, i);
        return Failure(InvalidRange), pages;
      }
      var key := KeyOf(c);
      var prefix := if key in pages then pages[key] else "";
      if c.start > |prefix| {
        forall texts ensures !Restorable(chunks, texts) { RestorableIsNotRefused(chunks, texts, pages, i); }
        if Gapless(chunks) { StartsInsidePrefix(chunks, pages, i); }
        return Failure(UnobservedPrefix), pages;
      }
      var overlap := Overlap(c, prefix);
      if prefix[c.start..c.start + overlap] != c.content[..overlap] {
        forall texts ensures !Restorable(chunks, texts) { RestorableIsNotRefused(chunks, texts, pages, i); }
        forall texts ensures !Slices(chunks, texts) {
          if Slices(chunks, texts) { OverlapAgrees(chunks, texts, pages, i); }
        }
        return Failure(InconsistentOverlap), pages;
      }
      var page := prefix + c.content[overlap..];
      Rebuild(ordered, pages, i, prefix, page);
      var ordinal := if c.setId in ordinals then ordinals[c.setId] else 0;
      OrdinalStep(ordered, i);
      forall k | 0 <= k < i ensures Placed(ordered, pages[key := page], k, restored[k]) {
        PlacedKept(ordered, pages, k, restored[k], key, prefix, page);
      }
      PlacedNew(ordered, pages[key := page], i, ordinal, page);
      pages := pages[key := page];
      restored := restored + [Restored(c, ordinal, Newlines(page[..c.start]) + 1, Newlines(page[..c.end]) + 1)];
      ordinals := ordinals[c.setId := ordinal + 1];
    }
    assert ordered[..|ordered|] == ordered;
    RebuiltIsRestorable(chunks, pages);
    r := Success(restored);
  }

  method CheckDistinct(chunks: seq<Chunk>) returns (distinct: bool)
    ensures distinct <==> DistinctIds(chunks)
  {
    var seen: set<string> := {};
    for i := 0 to |chunks|
      invariant seen == set k | 0 <= k < i :: chunks[k].id
      invariant DistinctIds(chunks[..i])
    {
      if chunks[i].id in seen { return false; }
      seen := seen + {chunks[i].id};
    }
    assert chunks[..|chunks|] == chunks;
    return true;
  }

  lemma NothingRebuilt()
    ensures Rebuilt([], map[]) && forall s :: OrdinalOf([], s) == 0
  {
  }

  lemma OrdinalStep(chunks: seq<Chunk>, i: nat)
    requires i < |chunks|
    ensures forall s :: OrdinalOf(chunks[..i + 1], s) == OrdinalOf(chunks[..i], s) + (if chunks[i].setId == s then 1 else 0)
  {
    assert chunks[..i + 1][..i] == chunks[..i];
  }

  lemma PlacedNew(chunks: seq<Chunk>, pages: map<Key, string>, i: nat, ordinal: nat, page: string)
    requires i < |chunks| && ordinal == OrdinalOf(chunks[..i], chunks[i].setId)
    requires SliceOf(chunks[i], pages) && page == pages[KeyOf(chunks[i])] && 0 <= chunks[i].start <= chunks[i].end <= |page|
    ensures Placed(chunks, pages, i, Restored(chunks[i], ordinal, Newlines(page[..chunks[i].start]) + 1, Newlines(page[..chunks[i].end]) + 1))
  {
  }

  lemma PlacedKept(chunks: seq<Chunk>, pages: map<Key, string>, k: nat, r: Restored, key: Key, prefix: string, page: string)
    requires k < |chunks| && Placed(chunks, pages, k, r)
    requires prefix == (if key in pages then pages[key] else "") && |prefix| <= |page| && page[..|prefix|] == prefix
    ensures Placed(chunks, pages[key := page], k, r)
  {
    var c := chunks[k];
    if KeyOf(c) == key {
      assert page[..c.start] == prefix[..c.start] && page[..c.end] == prefix[..c.end];
      assert page[c.start..c.end] == prefix[c.start..c.end];
    }
  }

  /** One accepted chunk extends its page and keeps it rebuilt. */
  lemma Rebuild(chunks: seq<Chunk>, pages: map<Key, string>, i: nat, prefix: string, page: string)
    requires i < |chunks| && RangeOk(chunks[i]) && Rebuilt(chunks[..i], pages)
    requires prefix == PrefixAt(chunks, pages, i) && chunks[i].start <= |prefix|
    requires prefix[chunks[i].start..chunks[i].start + Overlap(chunks[i], prefix)] == chunks[i].content[..Overlap(chunks[i], prefix)]
    requires page == prefix + chunks[i].content[Overlap(chunks[i], prefix)..]
    ensures page[..|prefix|] == prefix && SliceOf(chunks[i], pages[KeyOf(chunks[i]) := page])
    ensures Rebuilt(chunks[..i + 1], pages[KeyOf(chunks[i]) := page])
  {
    var c, key := chunks[i], KeyOf(chunks[i]);
    var pages' := pages[key := page];
    var before, after := chunks[..i], chunks[..i + 1];
    ExtendedSlice(c, prefix, page);
    hide Overlap;
    forall k | 0 <= k < |after| ensures SliceOf(after[k], pages') {
      if k < i {
        assert SliceOf(before[k], pages);
        if KeyOf(after[k]) == key { SameSlice(page, prefix, after[k].start, after[k].end); }
      }
    }
    hide SliceOf, RangeOk;
    forall key', q | key' in pages' && 0 <= q < |pages'[key']| ensures Covered(after, key', q) {
      if key' == key && q >= |prefix| {
        assert after[i].start <= q < after[i].end;
      } else {
        StaysCovered(chunks, i, key', q);
      }
    }
  }

  lemma SameSlice(page: string, prefix: string, start: int, end: int)
    requires 0 <= start <= end <= |prefix| <= |page| && page[..|prefix|] == prefix
    ensures page[start..end] == prefix[start..end]
  {
    forall k | start <= k < end ensures page[k] == prefix[k] { assert page[..|prefix|][k] == page[k]; }
  }

  lemma StaysCovered(chunks: seq<Chunk>, i: nat, key: Key, q: int)
    requires i < |chunks| && Covered(chunks[..i], key, q)
    ensures Covered(chunks[..i + 1], key, q)
  {
    var k :| 0 <= k < i && KeyOf(chunks[..i][k]) == key && chunks[..i][k].start <= q < chunks[..i][k].end;
    assert chunks[..i + 1][k] == chunks[..i][k];
  }

  lemma ExtendedSlice(c: Chunk, prefix: string, page: string)
    requires RangeOk(c) && c.start <= |prefix|
    requires prefix[c.start..c.start + Overlap(c, prefix)] == c.content[..Overlap(c, prefix)]
    requires page == prefix + c.content[Overlap(c, prefix)..]
    ensures |page| == (if |prefix| < c.end then c.end else |prefix|)
    ensures page[..|prefix|] == prefix && page[c.start..c.end] == c.content
  {
    var n := Overlap(c, prefix);
    forall k | 0 <= k < |c.content| ensures page[c.start + k] == c.content[k] {
      if k < n {
        assert prefix[c.start..c.start + n][k] == c.content[..n][k];
      } else {
        assert c.content[n..][k - n] == c.content[k];
      }
    }
    assert page[..|prefix|] == prefix;
    assert page[c.start..c.end] == c.content;
  }

  lemma RestorableIsDistinct(chunks: seq<Chunk>, texts: map<Key, string>)
    ensures Restorable(chunks, texts) ==> DistinctIds(chunks)
  {
  }

  // ---------- each refusal is justified ----------

  lemma SortedMember(chunks: seq<Chunk>, i: nat) returns (j: nat)
    requires i < |Sort(ChunkLe, chunks)|
    ensures j < |chunks| && chunks[j] == Sort(ChunkLe, chunks)[i]
  {
    InSort(ChunkLe, chunks, Sort(ChunkLe, chunks)[i]);
    j :| 0 <= j < |chunks| && chunks[j] == Sort(ChunkLe, chunks)[i];
  }

  /** Any chunk of the same page that starts earlier has been visited before. */
  lemma EarlierStartsComeFirst(chunks: seq<Chunk>, i: nat, d: Chunk) returns (k: nat)
    requires i < |Sort(ChunkLe, chunks)| && d in chunks
    requires KeyOf(d) == KeyOf(Sort(ChunkLe, chunks)[i]) && d.start < Sort(ChunkLe, chunks)[i].start
    ensures k < i && Sort(ChunkLe, chunks)[k] == d
  {
    var ordered := Sort(ChunkLe, chunks);
    ChunkLeIsTotalOrder();
    SortSorts(ChunkLe, chunks);
    InSort(ChunkLe, chunks, d);
    k :| 0 <= k < |ordered| && ordered[k] == d;
    assert k >= i ==> k == i || ChunkLe(ordered[i], ordered[k]);
  }

  function PrefixAt(chunks: seq<Chunk>, pages: map<Key, string>, i: nat): string
    requires i < |chunks|
  {
    if KeyOf(chunks[i]) in pages then pages[KeyOf(chunks[i])] else ""
  }

  function Overlap(c: Chunk, prefix: string): int {
    (if |prefix| < c.end then |prefix| else c.end) - c.start
  }

  /** When the chunks are restorable, none of the loop's three refusals applies to the next chunk. */
  lemma RestorableIsNotRefused(chunks: seq<Chunk>, texts: map<Key, string>, pages: map<Key, string>, i: nat)
    requires i < |Sort(ChunkLe, chunks)| && Rebuilt(Sort(ChunkLe, chunks)[..i], pages)
    ensures Restorable(chunks, texts) ==>
              var c, prefix := Sort(ChunkLe, chunks)[i], PrefixAt(Sort(ChunkLe, chunks), pages, i);
              && RangeOk(c) && c.start <= |prefix|
              && prefix[c.start..c.start + Overlap(c, prefix)] == c.content[..Overlap(c, prefix)]
  {
    if Restorable(chunks, texts) {
      var j := SortedMember(chunks, i);
      StartsInsidePrefix(chunks, pages, i);
      OverlapAgrees(chunks, texts, pages, i);
    }
  }

  /** Slices of common page texts agree where a chunk overlaps what was rebuilt before. */
  lemma OverlapAgrees(chunks: seq<Chunk>, texts: map<Key, string>, pages: map<Key, string>, i: nat)
    requires i < |Sort(ChunkLe, chunks)| && Rebuilt(Sort(ChunkLe, chunks)[..i], pages) && Slices(chunks, texts)
    requires var c := Sort(ChunkLe, chunks)[i]; RangeOk(c) && c.start <= |PrefixAt(Sort(ChunkLe, chunks), pages, i)|
    ensures var c, prefix := Sort(ChunkLe, chunks)[i], PrefixAt(Sort(ChunkLe, chunks), pages, i);
            prefix[c.start..c.start + Overlap(c, prefix)] == c.content[..Overlap(c, prefix)]
  {
    var ordered := Sort(ChunkLe, chunks);
    var c, prefix := ordered[i], PrefixAt(ordered, pages, i);
    var j := SortedMember(chunks, i);
    assert SliceOf(chunks[j], texts);
    OrderedSlices(chunks, texts, i);
    var text := texts[KeyOf(c)];
    if KeyOf(c) in pages { RebuiltIsPrefix(ordered[..i], pages, texts, KeyOf(c)); }
    assert prefix == text[..|prefix|];
    PrefixSlice(prefix, text, c.start, c.end, Overlap(c, prefix));
  }

  lemma PrefixSlice(prefix: string, text: string, start: int, end: int, n: int)
    requires 0 <= start <= end <= |text| && 0 <= n <= end - start && start + n <= |prefix| <= |text|
    requires prefix == text[..|prefix|]
    ensures prefix[start..start + n] == text[start..end][..n]
  {
  }

  lemma StartsInsidePrefix(chunks: seq<Chunk>, pages: map<Key, string>, i: nat)
    requires i < |Sort(ChunkLe, chunks)| && Rebuilt(Sort(ChunkLe, chunks)[..i], pages) && Gapless(chunks)
    ensures Sort(ChunkLe, chunks)[i].start <= |PrefixAt(Sort(ChunkLe, chunks), pages, i)|
  {
    var ordered := Sort(ChunkLe, chunks);
    var c, q := ordered[i], |PrefixAt(ordered, pages, i)|;
    var j := SortedMember(chunks, i);
    assert q < c.start ==> Covered(chunks, KeyOf(chunks[j]), q);
    forall l | 0 <= l < |chunks| && KeyOf(chunks[l]) == KeyOf(c) && chunks[l].start < c.start
      ensures chunks[l].end <= q
    {
      var k := EarlierStartsComeFirst(chunks, i, chunks[l]);
      assert SliceOf(ordered[..i][k], pages);
    }
  }

  lemma OrderedSlices(chunks: seq<Chunk>, texts: map<Key, string>, i: nat)
    requires Slices(chunks, texts) && i <= |Sort(ChunkLe, chunks)|
    ensures Slices(Sort(ChunkLe, chunks)[..i], texts)
  {
    var ordered := Sort(ChunkLe, chunks);
    forall k | 0 <= k < i ensures SliceOf(ordered[..i][k], texts) {
      var j := SortedMember(chunks, k);
    }
  }

  lemma RebuiltIsRestorable(chunks: seq<Chunk>, pages: map<Key, string>)
    requires DistinctIds(chunks) && Rebuilt(Sort(ChunkLe, chunks), pages)
    requires forall i :: 0 <= i < |Sort(ChunkLe, chunks)| ==> RangeOk(Sort(ChunkLe, chunks)[i])
    ensures Restorable(chunks, pages)
  {
    var ordered := Sort(ChunkLe, chunks);
    forall j | 0 <= j < |chunks|
      ensures RangeOk(chunks[j]) && SliceOf(chunks[j], pages)
      ensures forall q :: 0 <= q < chunks[j].start ==> Covered(chunks, KeyOf(chunks[j]), q)
    {
      InSort(ChunkLe, chunks, chunks[j]);
      var i :| 0 <= i < |ordered| && ordered[i] == chunks[j];
      assert SliceOf(ordered[i], pages);
      forall q | 0 <= q < chunks[j].start ensures Covered(chunks, KeyOf(chunks[j]), q) {
        assert Covered(ordered, KeyOf(chunks[j]), q);
        var k :| 0 <= k < |ordered| && KeyOf(ordered[k]) == KeyOf(chunks[j]) && ordered[k].start <= q < ordered[k].end;
        var l := SortedMember(chunks, k);
      }
    }
  }

  // ---------- what acceptance gives, for any page texts ----------

  /** For any page texts the chunks are slices of, the rebuilt pages are prefixes of them, and the recovered
      line numbers are the ones counted in the full pages, although the loop counts in partly built ones. */
  lemma LinesAreThoseOfTheFullPage(chunks: seq<Chunk>, pages: map<Key, string>, texts: map<Key, string>, i: nat, r: Restored)
    requires Rebuilt(Sort(ChunkLe, chunks), pages) && Slices(chunks, texts)
    requires i < |Sort(ChunkLe, chunks)| && Placed(Sort(ChunkLe, chunks), pages, i, r)
    ensures Placed(Sort(ChunkLe, chunks), texts, i, r)
    ensures var key := KeyOf(r.chunk); |pages[key]| <= |texts[key]| && pages[key] == texts[key][..|pages[key]|]
  {
    var ordered := Sort(ChunkLe, chunks);
    var key := KeyOf(ordered[i]);
    OrderedSlices(chunks, texts, |ordered|);
    assert ordered[..|ordered|] == ordered;
    assert SliceOf(ordered[i], texts);
    RebuiltIsPrefix(ordered, pages, texts, key);
    assert pages[key][..ordered[i].start] == texts[key][..ordered[i].start];
    assert pages[key][..ordered[i].end] == texts[key][..ordered[i].end];
  }

  /** Each page has exactly one text of the rebuilt length of which every chunk is a slice. */
  lemma RebuiltTextIsUnique(chunks: seq<Chunk>, pages: map<Key, string>, texts: map<Key, string>, key: Key)
    requires Rebuilt(chunks, pages) && Slices(chunks, texts) && key in pages && key in texts && |texts[key]| == |pages[key]|
    ensures texts[key] == pages[key]
  {
    RebuiltIsPrefix(chunks, pages, texts, key);
  }

  /** The ordinals of a chunk set are exactly 0..k-1, each given to one chunk, in visiting order. */
  lemma {:induction false} OrdinalsAreConsecutive(chunks: seq<Chunk>, setId: string, n: nat) returns (i: nat)
    requires n < OrdinalOf(chunks, setId)
    ensures i < |chunks| && chunks[i].setId == setId && OrdinalOf(chunks[..i], setId) == n
    decreases |chunks|
  {
    var last := |chunks| - 1;
    if n == OrdinalOf(chunks[..last], setId) {
      i := last;
    } else {
      i := OrdinalsAreConsecutive(chunks[..last], setId, n);
      assert chunks[..last][..i] == chunks[..i];
    }
  }

  lemma {:induction false} OrdinalsGrow(chunks: seq<Chunk>, i: nat, j: nat)
    requires i < j < |chunks| && chunks[i].setId == chunks[j].setId
    ensures OrdinalOf(chunks[..i], chunks[i].setId) < OrdinalOf(chunks[..j], chunks[i].setId)
    decreases j
  {
    OrdinalStep(chunks, i);
    if j > i + 1 {
      assert chunks[..j][..i] == chunks[..i] && chunks[..j][..i + 1] == chunks[..i + 1];
      OrdinalMonotone(chunks[..j], i + 1, chunks[i].setId);
    }
  }

  lemma {:induction false} OrdinalMonotone(chunks: seq<Chunk>, i: nat, setId: string)
    requires i <= |chunks|
    ensures OrdinalOf(chunks[..i], setId) <= OrdinalOf(chunks, setId)
    decreases |chunks|
  {
    if i == |chunks| {
      assert chunks[..i] == chunks;
    } else {
      assert chunks[..|chunks| - 1][..i] == chunks[..i];
      OrdinalMonotone(chunks[..|chunks| - 1], i, setId);
    }
  }
}
