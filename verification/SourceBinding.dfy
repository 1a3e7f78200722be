/** Binding of evidence anchors to chunks: every occurrence of an anchor's text is proposed once per source
    position, an owner picks one, and a group of anchors is covered by the selected chunks that hold it. */
module SourceBinding {
  import opened Wrappers
  import opened Sorting
  import opened Text

  datatype Chunk = Chunk(workspaceId: string, id: string, versionId: string, chunkSetId: string, sourceKey: string,
                         rawSha: string, parserId: string, normalizerId: string, chunkingId: string,
                         pageStart: int, pageEnd: int, startOffset: int, endOffset: int, checksum: string, content: string)
  datatype Source = Source(id: string, sha: string)
  datatype Anchor = Anchor(id: string, sourceId: string, page: int, text: string)

  /** A source position; chunks that overlap share it. */
  datatype Identity = Identity(versionId: string, chunkSetId: string, start: int, end: int)
  datatype Match = Match(identity: Identity, page: int, chunkIds: seq<string>)
  datatype Status = Missing | Proposed | Ambiguous
  datatype Proposal = Proposal(sourceId: string, status: Status, matches: seq<Match>)
  datatype BindingError = WorkspaceMismatch | DuplicateChunks | InvalidDerivation

  // ---------- occurrences ----------

  predicate Relevant(a: Anchor, c: Chunk) {
    c.sourceKey == a.sourceId && c.pageStart == a.page
  }

  function IdentityAt(a: Anchor, c: Chunk, position: int): Identity {
    Identity(c.versionId, c.chunkSetId, c.startOffset + position, c.startOffset + position + |a.text|)
  }

  /** The chunk comes from the anchor's source and page and its content shows the anchor's text there. */
  predicate Holds(a: Anchor, c: Chunk, id: Identity) {
    Relevant(a, c) && OccursAt(c.content, a.text, id.start - c.startOffset) && id == IdentityAt(a, c, id.start - c.startOffset)
  }

  lemma HoldsMeans(a: Anchor, c: Chunk, id: Identity)
    ensures Holds(a, c, id) <==>
              && c.sourceKey == a.sourceId && c.pageStart == a.page && id.versionId == c.versionId && id.chunkSetId == c.chunkSetId
              && c.startOffset <= id.start && id.end == id.start + |a.text| && id.end <= c.startOffset + |c.content|
              && c.content[id.start - c.startOffset..id.end - c.startOffset] == a.text
  {
  }

  function PositionsFrom(content: string, text: string, cursor: nat): (r: seq<nat>)
    decreases |content| + 1 - cursor
  {
    var position := Find(content, text, cursor);
    if position < 0 || position > |content| then [] else [position as nat] + PositionsFrom(content, text, position + 1)
  }

  /** Every occurrence is visited once, overlapping ones included. */
  lemma {:induction false} PositionsAre(content: string, text: string, cursor: nat)
    ensures forall p :: p in PositionsFrom(content, text, cursor) <==> p >= cursor && OccursAt(content, text, p)
    ensures Distinct(PositionsFrom(content, text, cursor))
    decreases |content| + 1 - cursor
  {
    hide Find;
    var position := Find(content, text, cursor);
    if 0 <= position <= |content| { PositionsAre(content, text, position + 1); }
  }

  // ---------- the dictionary of occurrences, in insertion order ----------

  function IndexOf(matches: seq<Match>, id: Identity): (i: nat)
    ensures i <= |matches| && (i < |matches| ==> matches[i].identity == id)
    ensures forall k :: 0 <= k < i ==> matches[k].identity != id
  {
    if matches == [] || matches[0].identity == id then 0 else 1 + IndexOf(matches[1..], id)
  }

  function AddHit(matches: seq<Match>, id: Identity, page: int, chunkId: string): seq<Match> {
    var i := IndexOf(matches, id);
    if i < |matches| then matches[i := matches[i].(chunkIds := matches[i].chunkIds + [chunkId])]
    else matches + [Match(id, page, [chunkId])]
  }

  function AddAll(matches: seq<Match>, a: Anchor, c: Chunk, positions: seq<nat>): seq<Match>
    decreases |positions|
  {
    if positions == [] then matches
    else AddAll(AddHit(matches, IdentityAt(a, c, positions[0]), a.page, c.id), a, c, positions[1..])
  }

  function Matches(a: Anchor, chunks: seq<Chunk>): seq<Match>
    decreases |chunks|
  {
    if chunks == [] then []
    else
      var before, c := Matches(a, chunks[..|chunks| - 1]), chunks[|chunks| - 1];
      if Relevant(a, c) then AddAll(before, a, c, PositionsFrom(c.content, a.text, 0)) else before
  }

  /** The search loop: the cursor moves one past each hit, so overlapping occurrences are found too. */
  method FindMatches(a: Anchor, chunks: seq<Chunk>) returns (matches: seq<Match>)
    ensures matches == Matches(a, chunks)
  {
    hide Find, AddHit;
    matches := [];
    for i := 0 to |chunks|
      invariant matches == Matches(a, chunks[..i])
    {
      var c := chunks[i];
      assert chunks[..i + 1][..i] == chunks[..i];
      if !Relevant(a, c) { continue; }
      var cursor := 0;
      while true
        invariant cursor <= |c.content| + 1
        invariant Matches(a, chunks[..i + 1]) == AddAll(matches, a, c, PositionsFrom(c.content, a.text, cursor))
        decreases |c.content| + 1 - cursor
      {
        var position := Find(c.content, a.text, cursor);
        FindFits(c.content, a.text, cursor);
        if position < 0 { break; }
        matches := AddHit(matches, IdentityAt(a, c, position), a.page, c.id);
        cursor := position + 1;
      }
    }
    assert chunks[..|chunks|] == chunks;
  }

  ghost predicate Lists(matches: seq<Match>, id: Identity, chunkId: string) {
    exists k :: 0 <= k < |matches| && matches[k].identity == id && chunkId in matches[k].chunkIds
  }

  /** One match per identity, and each chunk once in it. */
  predicate WellFormed(matches: seq<Match>) {
    && (forall k, l :: 0 <= k < l < |matches| ==> matches[k].identity != matches[l].identity)
    && forall k :: 0 <= k < |matches| ==> matches[k].chunkIds != [] && Distinct(matches[k].chunkIds)
  }

  lemma AddHitLists(matches: seq<Match>, id: Identity, page: int, chunkId: string, id': Identity, chunkId': string)
    ensures Lists(AddHit(matches, id, page, chunkId), id', chunkId') <==>
            Lists(matches, id', chunkId') || (id' == id && chunkId' == chunkId)
  {
    var i, r := IndexOf(matches, id), AddHit(matches, id, page, chunkId);
    if Lists(matches, id', chunkId') {
      var k :| 0 <= k < |matches| && matches[k].identity == id' && chunkId' in matches[k].chunkIds;
      assert r[k].identity == id' && chunkId' in r[k].chunkIds;
    }
    assert r[i].identity == id && chunkId in r[i].chunkIds;
    if Lists(r, id', chunkId') {
      var k :| 0 <= k < |r| && r[k].identity == id' && chunkId' in r[k].chunkIds;
      if k != i { assert matches[k] == r[k]; }
      else if i < |matches| && chunkId' in matches[i].chunkIds { assert matches[i].identity == id'; }
    }
  }

  lemma AddHitWellFormed(matches: seq<Match>, id: Identity, page: int, chunkId: string)
    requires WellFormed(matches) && !Lists(matches, id, chunkId)
    ensures WellFormed(AddHit(matches, id, page, chunkId))
  {
  }

  ghost predicate HitBy(a: Anchor, c: Chunk, positions: seq<nat>, id: Identity, chunkId: string) {
    chunkId == c.id && exists k :: 0 <= k < |positions| && id == IdentityAt(a, c, positions[k])
  }

  lemma {:induction false} AddAllLists(matches: seq<Match>, a: Anchor, c: Chunk, positions: seq<nat>, id: Identity, chunkId: string)
    ensures Lists(AddAll(matches, a, c, positions), id, chunkId) <==> Lists(matches, id, chunkId) || HitBy(a, c, positions, id, chunkId)
    decreases |positions|
  {
    hide Lists, AddHit;
    if positions != [] {
      var first := IdentityAt(a, c, positions[0]);
      AddAllLists(AddHit(matches, first, a.page, c.id), a, c, positions[1..], id, chunkId);
      AddHitLists(matches, first, a.page, c.id, id, chunkId);
      HitByFirst(a, c, positions, id, chunkId);
    }
  }

  lemma HitByFirst(a: Anchor, c: Chunk, positions: seq<nat>, id: Identity, chunkId: string)
    requires positions != []
    ensures HitBy(a, c, positions, id, chunkId) <==>
            (chunkId == c.id && id == IdentityAt(a, c, positions[0])) || HitBy(a, c, positions[1..], id, chunkId)
  {
    if HitBy(a, c, positions[1..], id, chunkId) {
      var k :| 0 <= k < |positions[1..]| && id == IdentityAt(a, c, positions[1..][k]);
      assert positions[k + 1] == positions[1..][k];
    }
    if HitBy(a, c, positions, id, chunkId) {
      var k :| 0 <= k < |positions| && id == IdentityAt(a, c, positions[k]);
      if k > 0 { assert positions[1..][k - 1] == positions[k]; }
    }
  }

  lemma {:induction false} AddAllWellFormed(matches: seq<Match>, a: Anchor, c: Chunk, positions: seq<nat>)
    requires WellFormed(matches) && Distinct(positions)
    requires forall k :: 0 <= k < |positions| ==> !Lists(matches, IdentityAt(a, c, positions[k]), c.id)
    ensures WellFormed(AddAll(matches, a, c, positions))
    decreases |positions|
  {
    hide Lists, AddHit, WellFormed;
    if positions != [] {
      var first, rest := IdentityAt(a, c, positions[0]), positions[1..];
      AddHitWellFormed(matches, first, a.page, c.id);
      forall k | 0 <= k < |rest| ensures !Lists(AddHit(matches, first, a.page, c.id), IdentityAt(a, c, rest[k]), c.id) {
        AddHitLists(matches, first, a.page, c.id, IdentityAt(a, c, rest[k]), c.id);
        assert rest[k] == positions[k + 1];
      }
      AddAllWellFormed(AddHit(matches, first, a.page, c.id), a, c, rest);
    }
  }

  ghost predicate HeldBy(a: Anchor, chunks: seq<Chunk>, id: Identity, chunkId: string) {
    exists j :: 0 <= j < |chunks| && chunks[j].id == chunkId && Holds(a, chunks[j], id)
  }

  function ChunkIds(chunks: seq<Chunk>): seq<string> {
    seq(|chunks|, i requires 0 <= i < |chunks| => chunks[i].id)
  }

  lemma HitsAreHeld(a: Anchor, c: Chunk, id: Identity, chunkId: string)
    ensures Relevant(a, c) ==>
              (HitBy(a, c, PositionsFrom(c.content, a.text, 0), id, chunkId) <==> chunkId == c.id && Holds(a, c, id))
  {
    hide PositionsFrom, OccursAt;
    var positions := PositionsFrom(c.content, a.text, 0);
    PositionsAre(c.content, a.text, 0);
    if Relevant(a, c) && chunkId == c.id && Holds(a, c, id) {
      OccursInside(c.content, a.text, id.start - c.startOffset);
      assert id.start - c.startOffset in positions;
    }
  }

  lemma HeldLast(a: Anchor, chunks: seq<Chunk>, id: Identity, chunkId: string)
    requires chunks != []
    ensures HeldBy(a, chunks, id, chunkId) <==>
            HeldBy(a, chunks[..|chunks| - 1], id, chunkId)
            || (chunks[|chunks| - 1].id == chunkId && Holds(a, chunks[|chunks| - 1], id))
  {
    hide Holds;
    var init := chunks[..|chunks| - 1];
    if HeldBy(a, init, id, chunkId) {
      var j :| 0 <= j < |init| && init[j].id == chunkId && Holds(a, init[j], id);
      assert chunks[j] == init[j];
    }
    if HeldBy(a, chunks, id, chunkId) {
      var j :| 0 <= j < |chunks| && chunks[j].id == chunkId && Holds(a, chunks[j], id);
      if j < |init| { assert init[j] == chunks[j]; }
    }
  }

  /** The proposed matches are the source positions at which the anchor's text occurs, each once, and each
      lists exactly the chunks that hold it, each once. */
  lemma {:induction false} MatchesAre(a: Anchor, chunks: seq<Chunk>)
    requires Distinct(ChunkIds(chunks))
    ensures WellFormed(Matches(a, chunks))
    ensures forall id, chunkId :: Lists(Matches(a, chunks), id, chunkId) <==> HeldBy(a, chunks, id, chunkId)
    ensures OfPage(Matches(a, chunks), a.page)
    decreases |chunks|
  {
    hide Lists, AddAll, PositionsFrom, WellFormed, Holds, HitBy, HeldBy, OfPage;
    if chunks == [] {
      NothingMatches(a);
    } else {
      var init, c := chunks[..|chunks| - 1], chunks[|chunks| - 1];
      assert forall i :: 0 <= i < |init| ==> ChunkIds(init)[i] == ChunkIds(chunks)[i];
      MatchesAre(a, init);
      var before, positions := Matches(a, init), PositionsFrom(c.content, a.text, 0);
      forall id, chunkId ensures Lists(Matches(a, chunks), id, chunkId) <==> HeldBy(a, chunks, id, chunkId) {
        AddAllLists(before, a, c, positions, id, chunkId);
        HitsAreHeld(a, c, id, chunkId);
        HeldLast(a, chunks, id, chunkId);
        HeldIsRelevant(a, c, id);
      }
      PositionsAre(c.content, a.text, 0);
      forall k | 0 <= k < |positions| ensures !Lists(before, IdentityAt(a, c, positions[k]), c.id) {
        LastIsNew(a, chunks, IdentityAt(a, c, positions[k]));
      }
      AddAllWellFormed(before, a, c, positions);
      AddAllOfPage(before, a, c, positions);
    }
  }

  // ---------- the order of the matches, into which a review's choices are indexes ----------

  ghost predicate Precedes(chunks: seq<Chunk>, x: string, y: string) {
    exists i, j :: 0 <= i < j < |chunks| && chunks[i].id == x && chunks[j].id == y
  }

  /** A match lists its chunks in their order; matches stand in the order of their first chunks, and those of one chunk
      from left to right. */
  ghost predicate InOrder(matches: seq<Match>, chunks: seq<Chunk>) {
    && (forall k :: 0 <= k < |matches| ==> matches[k].chunkIds != [])
    && (forall k, u, v :: 0 <= k < |matches| && 0 <= u < v < |matches[k].chunkIds| ==>
          Precedes(chunks, matches[k].chunkIds[u], matches[k].chunkIds[v]))
    && forall k, l :: 0 <= k < l < |matches| ==>
         var x, y := matches[k].chunkIds[0], matches[l].chunkIds[0];
         Precedes(chunks, x, y) || (x == y && matches[k].identity.start < matches[l].identity.start)
  }

  /** So far the chunk `c` stands last everywhere, and its own matches lie to the left of `bound`. */
  ghost predicate ReadySoFar(matches: seq<Match>, chunks: seq<Chunk>, c: Chunk, bound: int) {
    && InOrder(matches, chunks)
    && (forall k, u :: 0 <= k < |matches| && 0 <= u < |matches[k].chunkIds| ==>
          matches[k].chunkIds[u] == c.id || Precedes(chunks, matches[k].chunkIds[u], c.id))
    && forall k :: 0 <= k < |matches| && matches[k].chunkIds[0] == c.id ==> matches[k].identity.start < bound
  }

  lemma AddHitInOrder(matches: seq<Match>, chunks: seq<Chunk>, c: Chunk, id: Identity, page: int, bound: int)
    requires ReadySoFar(matches, chunks, c, id.start) && id.start < bound && !Lists(matches, id, c.id)
    ensures ReadySoFar(AddHit(matches, id, page, c.id), chunks, c, bound)
  {
    hide Precedes;
    var i := IndexOf(matches, id);
    if i < |matches| { assert c.id !in matches[i].chunkIds; }
  }

  lemma {:induction false} AddAllInOrder(matches: seq<Match>, a: Anchor, c: Chunk, positions: seq<nat>, chunks: seq<Chunk>, bound: int)
    requires ReadySoFar(matches, chunks, c, if positions == [] then bound else c.startOffset + positions[0])
    requires Ascending(positions) && forall k :: 0 <= k < |positions| ==> c.startOffset + positions[k] < bound
    requires forall k :: 0 <= k < |positions| ==> !Lists(matches, IdentityAt(a, c, positions[k]), c.id)
    ensures ReadySoFar(AddAll(matches, a, c, positions), chunks, c, bound)
    decreases |positions|
  {
    hide Lists, AddHit, ReadySoFar;
    if positions != [] {
      var first, rest := IdentityAt(a, c, positions[0]), positions[1..];
      forall k | 0 <= k < |rest| ensures !Lists(AddHit(matches, first, a.page, c.id), IdentityAt(a, c, rest[k]), c.id) {
        AddHitLists(matches, first, a.page, c.id, IdentityAt(a, c, rest[k]), c.id);
        assert rest[k] == positions[k + 1];
      }
      AddHitInOrder(matches, chunks, c, first, a.page, if rest == [] then bound else c.startOffset + rest[0]);
      AddAllInOrder(AddHit(matches, first, a.page, c.id), a, c, rest, chunks, bound);
    }
  }

  predicate Ascending(positions: seq<nat>) {
    forall k, l :: 0 <= k < l < |positions| ==> positions[k] < positions[l]
  }

  lemma AscendingFrom(first: nat, rest: seq<nat>)
    requires Ascending(rest) && forall k :: 0 <= k < |rest| ==> first < rest[k]
    ensures Ascending([first] + rest)
  {
  }

  lemma {:induction false} PositionsAscend(content: string, text: string, cursor: nat)
    ensures Ascending(PositionsFrom(content, text, cursor))
    ensures forall k :: 0 <= k < |PositionsFrom(content, text, cursor)| ==> cursor <= PositionsFrom(content, text, cursor)[k] <= |content|
    decreases |content| + 1 - cursor
  {
    hide Find, Ascending;
    var position := Find(content, text, cursor);
    FindFits(content, text, cursor);
    if 0 <= position <= |content| {
      PositionsAscend(content, text, position + 1);
      AscendingFrom(position, PositionsFrom(content, text, position + 1));
    } else {
      NoPositionsAscend();
    }
  }

  lemma NoPositionsAscend()
    ensures Ascending([])
  {
  }

  /** A new last chunk comes after all the others. */
  lemma BeforeTheLast(a: Anchor, chunks: seq<Chunk>, matches: seq<Match>, bound: int)
    requires chunks != [] && InOrder(matches, chunks[..|chunks| - 1]) && Distinct(ChunkIds(chunks))
    requires forall id, chunkId :: Lists(matches, id, chunkId) ==> HeldBy(a, chunks[..|chunks| - 1], id, chunkId)
    ensures ReadySoFar(matches, chunks, chunks[|chunks| - 1], bound)
  {
    var init, c := chunks[..|chunks| - 1], chunks[|chunks| - 1];
    forall x, y | Precedes(init, x, y) ensures Precedes(chunks, x, y) {
      var i, j :| 0 <= i < j < |init| && init[i].id == x && init[j].id == y;
      assert chunks[i].id == x && chunks[j].id == y;
    }
    forall k, u | 0 <= k < |matches| && 0 <= u < |matches[k].chunkIds|
      ensures matches[k].chunkIds[u] != c.id && Precedes(chunks, matches[k].chunkIds[u], c.id)
    {
      var x := matches[k].chunkIds[u];
      assert Lists(matches, matches[k].identity, x);
      assert HeldBy(a, init, matches[k].identity, x);
      var j :| 0 <= j < |init| && init[j].id == x && Holds(a, init[j], matches[k].identity);
      assert chunks[j].id == x && chunks[|chunks| - 1].id == c.id;
      assert ChunkIds(chunks)[j] != ChunkIds(chunks)[|chunks| - 1];
    }
    hide Precedes, Lists, HeldBy;
  }

  lemma {:induction false} MatchesInOrder(a: Anchor, chunks: seq<Chunk>)
    requires Distinct(ChunkIds(chunks))
    ensures InOrder(Matches(a, chunks), chunks)
    decreases |chunks|
  {
    hide InOrder, ReadySoFar, Lists, AddAll, PositionsFrom, HeldBy, Ascending;
    if chunks == [] {
      NothingInOrder();
    } else {
      var init, c := chunks[..|chunks| - 1], chunks[|chunks| - 1];
      assert forall i :: 0 <= i < |init| ==> ChunkIds(init)[i] == ChunkIds(chunks)[i];
      MatchesInOrder(a, init);
      MatchesAre(a, init);
      var before, positions := Matches(a, init), PositionsFrom(c.content, a.text, 0);
      var bound := c.startOffset + |c.content| + 1;
      PositionsAscend(c.content, a.text, 0);
      forall k | 0 <= k < |positions| ensures !Lists(before, IdentityAt(a, c, positions[k]), c.id) {
        LastIsNew(a, chunks, IdentityAt(a, c, positions[k]));
      }
      BeforeTheLast(a, chunks, before, bound);
      if Relevant(a, c) {
        BeforeTheLast(a, chunks, before, if positions == [] then bound else c.startOffset + positions[0]);
        AddAllInOrder(before, a, c, positions, chunks, bound);
      }
      OrderedWhenReady(Matches(a, chunks), chunks, c, bound);
    }
  }

  lemma OrderedWhenReady(matches: seq<Match>, chunks: seq<Chunk>, c: Chunk, bound: int)
    requires ReadySoFar(matches, chunks, c, bound)
    ensures InOrder(matches, chunks)
  {
  }

  lemma NothingInOrder()
    ensures InOrder([], [])
  {
  }

  predicate OfPage(matches: seq<Match>, page: int) {
    forall k :: 0 <= k < |matches| ==> matches[k].page == page
  }

  lemma {:induction false} AddAllOfPage(matches: seq<Match>, a: Anchor, c: Chunk, positions: seq<nat>)
    requires OfPage(matches, a.page)
    ensures OfPage(AddAll(matches, a, c, positions), a.page)
    decreases |positions|
  {
    if positions != [] { AddAllOfPage(AddHit(matches, IdentityAt(a, c, positions[0]), a.page, c.id), a, c, positions[1..]); }
  }

  lemma NothingMatches(a: Anchor)
    ensures WellFormed([]) && OfPage([], a.page)
    ensures forall id, chunkId :: !Lists([], id, chunkId) && !HeldBy(a, [], id, chunkId)
  {
  }

  lemma HeldIsRelevant(a: Anchor, c: Chunk, id: Identity)
    ensures Holds(a, c, id) ==> Relevant(a, c)
  {
  }

  lemma LastIsNew(a: Anchor, chunks: seq<Chunk>, id: Identity)
    requires chunks != [] && Distinct(ChunkIds(chunks))
    ensures !HeldBy(a, chunks[..|chunks| - 1], id, chunks[|chunks| - 1].id)
  {
    forall j | 0 <= j < |chunks| - 1 ensures chunks[j].id != chunks[|chunks| - 1].id {
      assert ChunkIds(chunks)[j] != ChunkIds(chunks)[|chunks| - 1];
    }
  }

  // ---------- the proposals ----------

  predicate ChunkIdLe(a: Chunk, b: Chunk) { StringLe(a.id, b.id) }

  /** The chunks are searched in the order of their ids. */
  lemma SearchOrder(derived: seq<Chunk>)
    ensures var chunks := Sort(ChunkIdLe, derived);
            multiset(chunks) == multiset(derived) && forall i, j :: 0 <= i < j < |chunks| ==> StringLe(chunks[i].id, chunks[j].id)
  {
    forall x: Chunk, y: Chunk ensures ChunkIdLe(x, y) || ChunkIdLe(y, x) { StringLeTotal(x.id, y.id); }
    forall x: Chunk, y: Chunk, z: Chunk | ChunkIdLe(x, y) && ChunkIdLe(y, z) ensures ChunkIdLe(x, z) {
      StringLeTransitive(x.id, y.id, z.id);
    }
    SortSorts(ChunkIdLe, derived);
    SortPermutes(ChunkIdLe, derived);
  }

  function Shas(sources: seq<Source>): map<string, string>
    decreases |sources|
  {
    if sources == [] then map[]
    else Shas(sources[..|sources| - 1])[sources[|sources| - 1].id := sources[|sources| - 1].sha]
  }

  predicate ValidChunk(c: Chunk, shas: map<string, string>, sha256: string -> string) {
    && c.sourceKey in shas && c.rawSha == shas[c.sourceKey]
    && c.workspaceId != "" && c.id != "" && c.versionId != "" && c.chunkSetId != ""
    && c.parserId != "" && c.normalizerId != "" && c.chunkingId != ""
    && 1 <= c.pageStart == c.pageEnd && 0 <= c.startOffset && c.endOffset - c.startOffset == |c.content|
    && sha256(c.content) == c.checksum
  }

  predicate Derivable(chunks: seq<Chunk>, sources: seq<Source>, sha256: string -> string) {
    && (forall i, j :: 0 <= i < |chunks| && 0 <= j < |chunks| ==> chunks[i].workspaceId == chunks[j].workspaceId)
    && Distinct(ChunkIds(chunks))
    && forall i :: 0 <= i < |chunks| ==> ValidChunk(chunks[i], Shas(sources), sha256)
  }

  /** The digest on file for a source is that of the last source listed under its id. */
  lemma {:induction false} ShasAre(sources: seq<Source>, id: string)
    ensures id in Shas(sources) <==> exists i :: 0 <= i < |sources| && sources[i].id == id
    ensures id in Shas(sources) ==>
              exists i :: 0 <= i < |sources| && sources[i].id == id && Shas(sources)[id] == sources[i].sha
                          && forall j :: i < j < |sources| ==> sources[j].id != id
    decreases |sources|
  {
    if sources != [] {
      var init, last := sources[..|sources| - 1], |sources| - 1;
      ShasAre(init, id);
      assert sources[last].id == id ==> Shas(sources)[id] == sources[last].sha;
      if id in Shas(init) {
        var i :| 0 <= i < |init| && init[i].id == id && Shas(init)[id] == init[i].sha && forall j :: i < j < |init| ==> init[j].id != id;
        assert sources[i] == init[i];
      }
      if sources[last].id != id {
        forall i | 0 <= i < |sources| && sources[i].id == id ensures i < last && init[i].id == id {}
      }
    }
  }

  /** What a chunk must hold to be bound: its source's digest, every identity, one page, and offsets and checksum of
      its own content. */
  lemma ValidChunkMeans(c: Chunk, sources: seq<Source>, sha256: string -> string)
    ensures ValidChunk(c, Shas(sources), sha256) <==>
              && (exists i :: 0 <= i < |sources| && sources[i].id == c.sourceKey && sources[i].sha == c.rawSha
                              && forall j :: i < j < |sources| ==> sources[j].id != c.sourceKey)
              && "" !in [c.workspaceId, c.id, c.versionId, c.chunkSetId, c.parserId, c.normalizerId, c.chunkingId]
              && c.pageStart > 0 && c.pageEnd == c.pageStart && c.startOffset >= 0 && c.endOffset == c.startOffset + |c.content|
              && c.checksum == sha256(c.content)
  {
    hide Shas;
    ShasAre(sources, c.sourceKey);
    var ids := [c.workspaceId, c.id, c.versionId, c.chunkSetId, c.parserId, c.normalizerId, c.chunkingId];
    assert ids[0] == c.workspaceId && ids[1] == c.id && ids[2] == c.versionId && ids[3] == c.chunkSetId && ids[4] == c.parserId
           && ids[5] == c.normalizerId && ids[6] == c.chunkingId;
  }

  /** Some chunk holds the anchor at the position. */
  ghost predicate ShownAt(a: Anchor, chunks: seq<Chunk>, id: Identity) {
    exists chunkId :: HeldBy(a, chunks, id, chunkId)
  }

  lemma PositionsOfMatches(a: Anchor, chunks: seq<Chunk>)
    requires Distinct(ChunkIds(chunks))
    ensures forall id :: ShownAt(a, chunks, id) <==> exists k :: 0 <= k < |Matches(a, chunks)| && Matches(a, chunks)[k].identity == id
    ensures forall k, l :: 0 <= k < l < |Matches(a, chunks)| ==> Matches(a, chunks)[k].identity != Matches(a, chunks)[l].identity
  {
    hide Matches, HeldBy;
    MatchesAre(a, chunks);
    var matches := Matches(a, chunks);
    forall id ensures ShownAt(a, chunks, id) <==> exists k :: 0 <= k < |matches| && matches[k].identity == id {
      if chunkId :| HeldBy(a, chunks, id, chunkId) { assert Lists(matches, id, chunkId); }
      if k :| 0 <= k < |matches| && matches[k].identity == id {
        var chunkId := matches[k].chunkIds[0];
        assert Lists(matches, id, chunkId);
        assert HeldBy(a, chunks, id, chunkId);
      }
    }
  }

  /** An anchor is missing, proposed or ambiguous as its text is shown at no, at one, or at several source positions. */
  lemma StatusMeans(a: Anchor, chunks: seq<Chunk>)
    requires Distinct(ChunkIds(chunks))
    ensures var p := ProposalOf(a, chunks);
            && p.sourceId == a.sourceId
            && (p.status == Missing <==> forall id :: !ShownAt(a, chunks, id))
            && (p.status == Ambiguous <==> exists id, id' :: id != id' && ShownAt(a, chunks, id) && ShownAt(a, chunks, id'))
  {
    hide Matches, ShownAt;
    PositionsOfMatches(a, chunks);
    var matches := Matches(a, chunks);
    if |matches| > 0 { assert ShownAt(a, chunks, matches[0].identity); }
    if |matches| > 1 { assert ShownAt(a, chunks, matches[1].identity); }
  }

  function ProposalOf(a: Anchor, chunks: seq<Chunk>): Proposal {
    var matches := Matches(a, chunks);
    Proposal(a.sourceId, if matches == [] then Missing else if |matches| == 1 then Proposed else Ambiguous, matches)
  }

  /** The last anchor of an id; a later anchor replaces the proposal of an earlier one. */
  function AnchorOf(anchors: seq<Anchor>, id: string): Option<Anchor>
    decreases |anchors|
  {
    if anchors == [] then None
    else if anchors[|anchors| - 1].id == id then Some(anchors[|anchors| - 1])
    else AnchorOf(anchors[..|anchors| - 1], id)
  }

  lemma {:induction false} AnchorOfIsLast(anchors: seq<Anchor>, id: string)
    ensures AnchorOf(anchors, id).Some? <==> exists i :: 0 <= i < |anchors| && anchors[i].id == id
    ensures forall i :: 0 <= i < |anchors| && anchors[i].id == id && (forall j :: i < j < |anchors| ==> anchors[j].id != id) ==>
              AnchorOf(anchors, id) == Some(anchors[i])
    decreases |anchors|
  {
    if anchors != [] {
      var init, last := anchors[..|anchors| - 1], |anchors| - 1;
      AnchorOfIsLast(init, id);
      assert forall i :: 0 <= i < last ==> init[i] == anchors[i];
      if anchors[last].id != id {
        forall i | 0 <= i < |anchors| && anchors[i].id == id && (forall j :: i < j < |anchors| ==> anchors[j].id != id)
          ensures AnchorOf(anchors, id) == Some(anchors[i])
        {
          assert init[i].id == id;
        }
      }
    }
  }

  ghost predicate ProposalsFor(anchors: seq<Anchor>, chunks: seq<Chunk>, proposals: map<string, Proposal>) {
    forall id :: if AnchorOf(anchors, id) == None then id !in proposals
                 else id in proposals && proposals[id] == ProposalOf(AnchorOf(anchors, id).value, chunks)
  }

  method CheckChunks(chunks: seq<Chunk>, sources: seq<Source>, sha256: string -> string)
    returns (r: Result<(), BindingError>)
    ensures r.Success? <==> Derivable(chunks, sources, sha256)
    ensures r == Failure(WorkspaceMismatch) <==> exists i, j :: 0 <= i < j < |chunks| && chunks[i].workspaceId != chunks[j].workspaceId
    ensures r == Failure(DuplicateChunks) <==>
              !Distinct(ChunkIds(chunks)) && forall i, j :: 0 <= i < j < |chunks| ==> chunks[i].workspaceId == chunks[j].workspaceId
  {
    hide Shas, ValidChunk;
    var workspaces := set i | 0 <= i < |chunks| :: chunks[i].workspaceId;
    OneElement(workspaces);
    if |workspaces| > 1 {
      var x, y :| x in workspaces && y in workspaces && x != y;
      var i, j :| 0 <= i < |chunks| && 0 <= j < |chunks| && chunks[i].workspaceId == x && chunks[j].workspaceId == y;
      assert if i < j then chunks[i].workspaceId != chunks[j].workspaceId else j < i && chunks[j].workspaceId != chunks[i].workspaceId;
      return Failure(WorkspaceMismatch);
    }
    assert forall i :: 0 <= i < |chunks| ==> chunks[i].workspaceId in workspaces;
    var distinct := DistinctStrings(ChunkIds(chunks));
    if !distinct { return Failure(DuplicateChunks); }
    for i := 0 to |chunks|
      invariant forall k :: 0 <= k < i ==> ValidChunk(chunks[k], Shas(sources), sha256)
    {
      if !ValidChunk(chunks[i], Shas(sources), sha256) { return Failure(InvalidDerivation); }
    }
    return Success(());
  }

  lemma OneElement(s: set<string>)
    ensures |s| > 1 <==> exists x, y :: x in s && y in s && x != y
  {
    if s != {} {
      var x :| x in s;
      assert s == {x} + (s - {x});
      if s - {x} != {} { var y :| y in s - {x}; }
    }
  }

  method DistinctStrings(ids: seq<string>) returns (distinct: bool)
    ensures distinct <==> Distinct(ids)
  {
    var seen: set<string> := {};
    for i := 0 to |ids|
      invariant forall x :: x in seen <==> x in ids[..i]
      invariant Distinct(ids[..i])
    {
      if ids[i] in seen { return false; }
      seen := seen + {ids[i]};
    }
    assert ids[..|ids|] == ids;
    return true;
  }

  method ProposeBindings(anchors: seq<Anchor>, sources: seq<Source>, derived: seq<Chunk>, sha256: string -> string)
    returns (r: Result<map<string, Proposal>, BindingError>)
    ensures r.Success? <==> Derivable(Sort(ChunkIdLe, derived), sources, sha256)
    ensures r.Success? ==> ProposalsFor(anchors, Sort(ChunkIdLe, derived), r.value)
    ensures r.Success? ==> forall id :: id in r.value <==> exists i :: 0 <= i < |anchors| && anchors[i].id == id
    ensures r.Success? ==> forall i :: 0 <= i < |anchors| && (forall j :: i < j < |anchors| ==> anchors[j].id != anchors[i].id) ==>
              anchors[i].id in r.value && r.value[anchors[i].id] == ProposalOf(anchors[i], Sort(ChunkIdLe, derived))
  {
    hide Sort, Derivable, ProposalOf;
    var chunks := Sort(ChunkIdLe, derived);
    var checked := CheckChunks(chunks, sources, sha256);
    if checked.Failure? { return Failure(checked.error); }
    var proposals: map<string, Proposal> := map[];
    for i := 0 to |anchors|
      invariant ProposalsFor(anchors[..i], chunks, proposals)
    {
      var a := anchors[i];
      assert anchors[..i + 1][..i] == anchors[..i];
      var matches := FindMatches(a, chunks);
      var proposal := Proposal(a.sourceId, if matches == [] then Missing else if |matches| == 1 then Proposed else Ambiguous, matches);
      assert proposal == ProposalOf(a, chunks) by { ProposalIs(a, chunks); }
      proposals := proposals[a.id := proposal];
    }
    assert anchors[..|anchors|] == anchors;
    forall id ensures id in proposals <==> exists i :: 0 <= i < |anchors| && anchors[i].id == id { AnchorOfIsLast(anchors, id); }
    forall i | 0 <= i < |anchors| && (forall j :: i < j < |anchors| ==> anchors[j].id != anchors[i].id)
      ensures AnchorOf(anchors, anchors[i].id) == Some(anchors[i])
    {
      AnchorOfIsLast(anchors, anchors[i].id);
    }
    return Success(proposals);
  }

  lemma ProposalIs(a: Anchor, chunks: seq<Chunk>)
    ensures ProposalOf(a, chunks).sourceId == a.sourceId && ProposalOf(a, chunks).matches == Matches(a, chunks)
    ensures ProposalOf(a, chunks).status ==
            if Matches(a, chunks) == [] then Missing else if |Matches(a, chunks)| == 1 then Proposed else Ambiguous
  {
  }

  // ---------- the review ----------

  datatype ProposalDocument = ProposalDocument(schemaVersion: int, anchors: map<string, Proposal>, sha: string)
  datatype Review = Review(schemaVersion: Option<int>, status: string, reviewer: string, decisionUrl: string,
                           proposalSha: string, choices: map<string, seq<int>>)
  datatype ReviewError = UnsupportedSchema | OwnerReviewRequired | DigestMismatch | Uncovered | AmbiguousBinding | InvalidOccurrence

  /** One reviewed occurrence where there is any, none where there is none. */
  predicate ChoiceFits(p: Proposal, indexes: seq<int>) {
    if p.matches == [] then indexes == [] else |indexes| == 1 && 0 <= indexes[0] < |p.matches|
  }

  function Chosen(p: Proposal, indexes: seq<int>): seq<string>
    requires ChoiceFits(p, indexes)
  {
    if indexes == [] then [] else p.matches[indexes[0]].chunkIds
  }

  predicate OwnerApproved(review: Review) {
    review.status == "approved" && review.reviewer == "NhiBuaa" && review.decisionUrl != ""
  }

  predicate Reviewed(doc: ProposalDocument, calculated: string, review: Review) {
    && doc.schemaVersion in {1, 2} && (review.schemaVersion.Some? ==> review.schemaVersion.value in {1, 2})
    && OwnerApproved(review) && calculated == doc.sha == review.proposalSha
    && review.choices.Keys == doc.anchors.Keys
    && ChoicesFit(doc.anchors, review.choices)
  }

  predicate ChoicesFit(proposals: map<string, Proposal>, choices: map<string, seq<int>>) {
    forall id :: id in proposals ==> id in choices && ChoiceFits(proposals[id], choices[id])
  }

  ghost predicate Bound(proposals: map<string, Proposal>, choices: map<string, seq<int>>, bindings: map<string, seq<string>>) {
    bindings.Keys == proposals.Keys && ChoicesFit(proposals, choices)
    && forall id :: id in bindings ==> bindings[id] == Chosen(proposals[id], choices[id])
  }

  /** The error names the first check that fails, in the order schema, owner, digest, coverage, choices. */
  ghost predicate Blames(doc: ProposalDocument, calculated: string, review: Review, error: ReviewError) {
    var supported := doc.schemaVersion in {1, 2} && (review.schemaVersion.Some? ==> review.schemaVersion.value in {1, 2});
    var matching := calculated == doc.sha == review.proposalSha;
    match error
    case UnsupportedSchema => !supported
    case OwnerReviewRequired => supported && !OwnerApproved(review)
    case DigestMismatch => supported && OwnerApproved(review) && !matching
    case Uncovered => supported && OwnerApproved(review) && matching && review.choices.Keys != doc.anchors.Keys
    case AmbiguousBinding =>
      supported && OwnerApproved(review) && matching && review.choices.Keys == doc.anchors.Keys
      && exists id :: id in doc.anchors && |review.choices[id]| != if doc.anchors[id].matches == [] then 0 else 1
    case InvalidOccurrence =>
      supported && OwnerApproved(review) && matching && review.choices.Keys == doc.anchors.Keys
      && exists id :: id in doc.anchors && |review.choices[id]| == 1 && !(0 <= review.choices[id][0] < |doc.anchors[id].matches|)
  }

  /** `calculated` is the digest of the document without its own digest. */
  method ValidateBindingReview(doc: ProposalDocument, calculated: string, review: Review)
    returns (r: Result<map<string, seq<string>>, ReviewError>)
    ensures r.Success? <==> Reviewed(doc, calculated, review)
    ensures r.Success? ==> Bound(doc.anchors, review.choices, r.value)
    ensures r.Failure? ==> Blames(doc, calculated, review, r.error)
  {
    hide ChoiceFits;
    if doc.schemaVersion !in {1, 2} { return Failure(UnsupportedSchema); }
    if review.schemaVersion.Some? && review.schemaVersion.value !in {1, 2} { return Failure(UnsupportedSchema); }
    if review.status != "approved" || review.reviewer != "NhiBuaa" || review.decisionUrl == "" { return Failure(OwnerReviewRequired); }
    if calculated != doc.sha || review.proposalSha != calculated { return Failure(DigestMismatch); }
    if review.choices.Keys != doc.anchors.Keys { return Failure(Uncovered); }
    var bindings: map<string, seq<string>> := map[];
    var rest := doc.anchors.Keys;
    while rest != {}
      invariant rest <= doc.anchors.Keys && bindings.Keys == doc.anchors.Keys - rest
      invariant forall id :: id in bindings ==> ChoiceFits(doc.anchors[id], review.choices[id])
                                                && bindings[id] == Chosen(doc.anchors[id], review.choices[id])
    {
      var id :| id in rest;
      var chosen := ValidateChoice(doc.anchors[id], review.choices[id]);
      if chosen.Failure? { return Failure(chosen.error); }
      bindings, rest := bindings[id := chosen.value], rest - {id};
    }
    return Success(bindings);
  }

  method ValidateChoice(p: Proposal, indexes: seq<int>) returns (r: Result<seq<string>, ReviewError>)
    ensures r.Success? <==> ChoiceFits(p, indexes)
    ensures r.Success? ==> r.value == Chosen(p, indexes)
    ensures r == Failure(AmbiguousBinding) <==> |indexes| != if p.matches == [] then 0 else 1
    ensures r.Failure? ==> r.error.AmbiguousBinding? || (r.error.InvalidOccurrence? && |indexes| == 1 && !(0 <= indexes[0] < |p.matches|))
  {
    if |indexes| != (if p.matches != [] then 1 else 0) { return Failure(AmbiguousBinding); }
    if indexes != [] && !(0 <= indexes[0] < |p.matches|) { return Failure(InvalidOccurrence); }
    return Success(if indexes != [] then p.matches[indexes[0]].chunkIds else []);
  }

  // ---------- coverage ----------

  predicate Meets(selected: seq<string>, chunkIds: seq<string>) {
    exists i :: 0 <= i < |chunkIds| && chunkIds[i] in selected
  }

  /** The alternatives are tried in order up to the first covered one; an unknown anchor reached before is a
      missing key. */
  function Covered(alternatives: seq<string>, bindings: map<string, seq<string>>, selected: seq<string>): Option<bool> {
    if alternatives == [] then Some(false)
    else if alternatives[0] !in bindings then None
    else if Meets(selected, bindings[alternatives[0]]) then Some(true)
    else Covered(alternatives[1..], bindings, selected)
  }

  function GroupCoverage(groups: seq<seq<string>>, bindings: map<string, seq<string>>, selected: seq<string>): Option<seq<bool>> {
    if forall g :: 0 <= g < |groups| ==> Covered(groups[g], bindings, selected).Some?
    then Some(seq(|groups|, g requires 0 <= g < |groups| && Covered(groups[g], bindings, selected).Some? =>
                              Covered(groups[g], bindings, selected).value))
    else None
  }

  lemma {:induction false} CoveredMeans(alternatives: seq<string>, bindings: map<string, seq<string>>, selected: seq<string>)
    requires Covered(alternatives, bindings, selected).Some?
    ensures Covered(alternatives, bindings, selected).value <==>
            exists i :: 0 <= i < |alternatives| && alternatives[i] in bindings && Meets(selected, bindings[alternatives[i]])
  {
    hide Meets;
    if alternatives != [] {
      var rest := alternatives[1..];
      if !Meets(selected, bindings[alternatives[0]]) {
        CoveredMeans(rest, bindings, selected);
        assert forall i :: 0 <= i < |rest| ==> rest[i] == alternatives[i + 1];
        if i :| 0 <= i < |alternatives| && alternatives[i] in bindings && Meets(selected, bindings[alternatives[i]]) {
          assert rest[i - 1] == alternatives[i];
        }
      }
    }
  }

  /** The alternative is unknown, and all before it are known and uncovered. */
  predicate Unknown(alternatives: seq<string>, bindings: map<string, seq<string>>, selected: seq<string>, i: nat)
    requires i < |alternatives|
  {
    alternatives[i] !in bindings && forall j :: 0 <= j < i ==> alternatives[j] in bindings && !Meets(selected, bindings[alternatives[j]])
  }

  lemma {:induction false} CoveredFails(alternatives: seq<string>, bindings: map<string, seq<string>>, selected: seq<string>)
    ensures Covered(alternatives, bindings, selected).None? <==> exists i :: 0 <= i < |alternatives| && Unknown(alternatives, bindings, selected, i)
  {
    hide Meets;
    if alternatives != [] {
      var rest := alternatives[1..];
      if alternatives[0] !in bindings {
        assert Unknown(alternatives, bindings, selected, 0);
      } else if !Meets(selected, bindings[alternatives[0]]) {
        CoveredFails(rest, bindings, selected);
        assert forall i :: 0 <= i < |rest| ==> rest[i] == alternatives[i + 1];
        if i :| 0 <= i < |rest| && Unknown(rest, bindings, selected, i) {
          assert forall j :: 0 < j <= i ==> alternatives[j] == rest[j - 1];
          assert Unknown(alternatives, bindings, selected, i + 1);
        }
        if i :| 0 <= i < |alternatives| && Unknown(alternatives, bindings, selected, i) { assert Unknown(rest, bindings, selected, i - 1); }
      }
    }
  }

  /** Coverage fails exactly when, in some group, an unknown anchor comes before every covered one. */
  lemma CoverageFailsIff(groups: seq<seq<string>>, bindings: map<string, seq<string>>, selected: seq<string>)
    ensures GroupCoverage(groups, bindings, selected).None? <==>
            exists g, i :: 0 <= g < |groups| && 0 <= i < |groups[g]| && Unknown(groups[g], bindings, selected, i)
    ensures GroupCoverage(groups, bindings, selected).Some? ==> |GroupCoverage(groups, bindings, selected).value| == |groups|
  {
    hide Covered, Unknown;
    forall g | 0 <= g < |groups| { CoveredFails(groups[g], bindings, selected); }
  }

  /** A selected chunk of the anchor's source and page shows the anchor's text at the reviewed position. */
  ghost predicate Shown(anchors: seq<Anchor>, chunks: seq<Chunk>, proposals: map<string, Proposal>,
                        choices: map<string, seq<int>>, id: string, selected: seq<string>)
  {
    && AnchorOf(anchors, id).Some? && id in proposals && id in choices && ChoiceFits(proposals[id], choices[id])
    && choices[id] != []
    && exists j :: 0 <= j < |chunks| && chunks[j].id in selected
                   && Holds(AnchorOf(anchors, id).value, chunks[j], proposals[id].matches[choices[id][0]].identity)
  }

  lemma MatchLists(matches: seq<Match>, k: nat, chunkId: string)
    requires k < |matches| && WellFormed(matches)
    ensures chunkId in matches[k].chunkIds <==> Lists(matches, matches[k].identity, chunkId)
  {
  }

  lemma BoundMeetsIfShown(anchors: seq<Anchor>, chunks: seq<Chunk>, proposals: map<string, Proposal>,
                          choices: map<string, seq<int>>, bindings: map<string, seq<string>>, id: string, selected: seq<string>)
    requires Distinct(ChunkIds(chunks)) && ProposalsFor(anchors, chunks, proposals) && Bound(proposals, choices, bindings)
    requires id in bindings
    ensures Meets(selected, bindings[id]) <==> Shown(anchors, chunks, proposals, choices, id, selected)
  {
    hide Holds, WellFormed, Lists, Distinct, Matches;
    var a := AnchorOf(anchors, id).value;
    MatchesAre(a, chunks);
    if choices[id] != [] {
      var m := proposals[id].matches[choices[id][0]];
      forall c ensures c in m.chunkIds <==> HeldBy(a, chunks, m.identity, c) { MatchLists(Matches(a, chunks), choices[id][0], c); }
      assert bindings[id] == m.chunkIds;
      if Meets(selected, bindings[id]) {
        var i :| 0 <= i < |m.chunkIds| && m.chunkIds[i] in selected;
        assert m.chunkIds[i] in m.chunkIds;
      }
      if Shown(anchors, chunks, proposals, choices, id, selected) {
        var j :| 0 <= j < |chunks| && chunks[j].id in selected && Holds(a, chunks[j], m.identity);
        assert HeldBy(a, chunks, m.identity, chunks[j].id);
        var i :| 0 <= i < |m.chunkIds| && m.chunkIds[i] == chunks[j].id;
      }
    }
  }

  /** After an accepted review a group counts as covered exactly when, for one of its anchors, some selected
      chunk of the right source and page shows the anchor's text at the reviewed position. */
  lemma CoveredGroupsShowTheText(anchors: seq<Anchor>, chunks: seq<Chunk>, proposals: map<string, Proposal>,
                                 choices: map<string, seq<int>>, bindings: map<string, seq<string>>,
                                 groups: seq<seq<string>>, selected: seq<string>, g: nat)
    requires Distinct(ChunkIds(chunks)) && ProposalsFor(anchors, chunks, proposals) && Bound(proposals, choices, bindings)
    requires GroupCoverage(groups, bindings, selected).Some? && g < |groups|
    ensures GroupCoverage(groups, bindings, selected).value[g] <==>
            exists i :: 0 <= i < |groups[g]| && Shown(anchors, chunks, proposals, choices, groups[g][i], selected)
  {
    hide Holds, Distinct, ProposalsFor, Bound, Meets, Shown, Covered;
    CoveredMeans(groups[g], bindings, selected);
    forall i | 0 <= i < |groups[g]|
      ensures groups[g][i] in bindings && Meets(selected, bindings[groups[g][i]])
              <==> Shown(anchors, chunks, proposals, choices, groups[g][i], selected)
    {
      if groups[g][i] in bindings {
        BoundMeetsIfShown(anchors, chunks, proposals, choices, bindings, groups[g][i], selected);
      } else {
        UnboundIsNotShown(anchors, chunks, proposals, choices, bindings, groups[g][i], selected);
      }
    }
  }

  lemma UnboundIsNotShown(anchors: seq<Anchor>, chunks: seq<Chunk>, proposals: map<string, Proposal>,
                          choices: map<string, seq<int>>, bindings: map<string, seq<string>>, id: string, selected: seq<string>)
    requires Bound(proposals, choices, bindings) && id !in bindings
    ensures !Shown(anchors, chunks, proposals, choices, id, selected)
  {
  }
}
