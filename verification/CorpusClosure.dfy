/** The closure check between a manifest, a binding and the corpus in production: a run may be sealed only
    when the complete active corpus is the one the manifest names. */
module CorpusClosure {
  import opened Wrappers

  datatype SourceBinding = SourceBinding(sourceKey: string, versionId: string, chunkSetId: string)

  datatype Binding = Binding(workspaceId: string, corpusManifest: string, provenanceId: string, sources: seq<SourceBinding>)

  datatype Manifest = Manifest(version: string, workspaceId: string, chunkSetId: string, chunks: set<string>)

  datatype Document = Document(sourceKey: string, versionId: string, chunkSetId: string, references: set<string>)

  datatype Corpus = Corpus(workspaceId: string, documents: seq<Document>)

  datatype ClosureError = Mismatch | SourceBindingMismatch | UnsplittableReference

  /** The part before the last '#', as `rsplit("#", 1)` gives it. */
  function SourceOf(reference: string): Option<string>
    decreases |reference|
  {
    if reference == "" then None
    else if reference[|reference| - 1] == '#' then Some(reference[..|reference| - 1])
    else SourceOf(reference[..|reference| - 1])
  }

  /** A reference splits at its last '#' and at no other place; without one it does not split. */
  lemma {:induction false} SourceOfMeans(reference: string)
    ensures SourceOf(reference).None? <==> '#' !in reference
    ensures SourceOf(reference).Some? ==>
              var n := |SourceOf(reference).value|;
              n < |reference| && reference[..n] == SourceOf(reference).value && reference[n] == '#' && '#' !in reference[n + 1..]
    decreases |reference|
  {
    if reference != "" {
      var init, last := reference[..|reference| - 1], reference[|reference| - 1];
      SourceOfMeans(init);
      assert reference == init + [last];
      if last != '#' && SourceOf(init).Some? {
        var n := |SourceOf(init).value|;
        assert reference[n + 1..] == init[n + 1..] + [last];
      }
    }
  }

  /** The four identities that the environment, the corpus and the manifest share. */
  predicate SameIdentities(b: Binding, c: Corpus, m: Manifest) {
    c.workspaceId == b.workspaceId && b.workspaceId == m.workspaceId && b.corpusManifest == m.version && b.provenanceId == m.chunkSetId
  }

  function ReferencesOf(chunks: set<string>, sourceKey: string): set<string> {
    set r | r in chunks && SourceOf(r) == Some(sourceKey)
  }

  function Sources(chunks: set<string>): set<string> {
    set r | r in chunks && SourceOf(r).Some? :: SourceOf(r).value
  }

  /** Entry `i` of the binding is the only one for this source. */
  predicate OnlyEntry(b: Binding, sourceKey: string, i: int) {
    0 <= i < |b.sources| && b.sources[i].sourceKey == sourceKey
    && forall j :: 0 <= j < |b.sources| && b.sources[j].sourceKey == sourceKey ==> j == i
  }

  ghost predicate BoundOnce(b: Binding, d: Document) {
    exists i :: OnlyEntry(b, d.sourceKey, i) && b.sources[i] == SourceBinding(d.sourceKey, d.versionId, d.chunkSetId)
  }

  ghost predicate Closed(b: Binding, c: Corpus, m: Manifest) {
    && c.workspaceId == b.workspaceId == m.workspaceId && b.corpusManifest == m.version && b.provenanceId == m.chunkSetId
    && (forall r :: r in m.chunks ==> SourceOf(r).Some?)
    && (forall i, j :: 0 <= i < j < |c.documents| ==> c.documents[i].sourceKey != c.documents[j].sourceKey)
    && (set d | d in c.documents :: d.sourceKey) == Sources(m.chunks) == (set s | s in b.sources :: s.sourceKey)
    && (forall d :: d in c.documents ==> BoundOnce(b, d) && d.references == ReferencesOf(m.chunks, d.sourceKey))
  }

  /** The one binding of a source, or the error raised when there is not exactly one. */
  method SourceBindingOf(b: Binding, sourceKey: string) returns (r: Result<SourceBinding, ClosureError>)
    ensures r.Failure? ==> r.error == SourceBindingMismatch && !exists i :: OnlyEntry(b, sourceKey, i)
    ensures r.Success? ==> exists i :: OnlyEntry(b, sourceKey, i) && r.value == b.sources[i]
  {
    var first := -1;
    var count := 0;
    for i := 0 to |b.sources|
      invariant count == 0 ==> first == -1 && forall j :: 0 <= j < i ==> b.sources[j].sourceKey != sourceKey
      invariant count >= 1 ==> 0 <= first < i && b.sources[first].sourceKey == sourceKey
      invariant count == 1 ==> forall j :: 0 <= j < i && b.sources[j].sourceKey == sourceKey ==> j == first
      invariant count > 1 ==> exists j :: 0 <= j < i && j != first && b.sources[j].sourceKey == sourceKey
      invariant count >= 0
    {
      if b.sources[i].sourceKey == sourceKey {
        if count == 0 { first := i; }
        count := count + 1;
      }
    }
    if count != 1 { return Failure(SourceBindingMismatch); }
    assert OnlyEntry(b, sourceKey, first);
    return Success(b.sources[first]);
  }

  /** The manifest's chunk references grouped by source. */
  method ExpectedReferences(chunks: set<string>) returns (r: Result<map<string, set<string>>, ClosureError>)
    ensures r.Success? <==> forall x :: x in chunks ==> SourceOf(x).Some?
    ensures r.Success? ==> r.value == map k | k in Sources(chunks) :: ReferencesOf(chunks, k)
  {
    var expected: map<string, set<string>> := map[];
    var rest := chunks;
    while rest != {}
      invariant rest <= chunks
      invariant forall x :: x in chunks - rest ==> SourceOf(x).Some?
      invariant expected == map k | k in Sources(chunks - rest) :: ReferencesOf(chunks - rest, k)
      decreases rest
    {
      var reference :| reference in rest;
      var key := SourceOf(reference);
      if key.None? { return Failure(UnsplittableReference); }
      assert chunks - (rest - {reference}) == (chunks - rest) + {reference};
      GroupOneMore(chunks - rest, reference);
      expected := expected[key.value := (if key.value in expected then expected[key.value] else {}) + {reference}];
      rest := rest - {reference};
    }
    assert chunks - rest == chunks;
    return Success(expected);
  }

  lemma GroupOneMore(done: set<string>, reference: string)
    requires SourceOf(reference).Some? && reference !in done
    ensures var key := SourceOf(reference).value;
            && Sources(done + {reference}) == Sources(done) + {key}
            && ReferencesOf(done + {reference}, key) == (if key in Sources(done) then ReferencesOf(done, key) else {}) + {reference}
            && forall k :: k != key ==> ReferencesOf(done + {reference}, k) == ReferencesOf(done, k)
  {
    var key := SourceOf(reference).value;
    assert key in Sources(done + {reference}) by { assert reference in done + {reference}; }
    forall k | k in Sources(done) ensures k in Sources(done + {reference}) {
      var r :| r in done && SourceOf(r) == Some(k);
      assert r in done + {reference};
    }
  }

  method VerifyCorpusClosure(b: Binding, c: Corpus, m: Manifest) returns (r: Result<(), ClosureError>)
    ensures r.Success? <==> Closed(b, c, m)
    ensures r == Failure(UnsplittableReference) <==> SameIdentities(b, c, m) && exists x :: x in m.chunks && SourceOf(x).None?
    ensures r == Failure(SourceBindingMismatch) ==> exists d :: d in c.documents && !exists i :: OnlyEntry(b, d.sourceKey, i)
  {
    hide BoundOnce, SourceOf, ReferencesOf, Sources, OnlyEntry;
    if c.workspaceId != b.workspaceId || b.workspaceId != m.workspaceId || b.corpusManifest != m.version
       || b.provenanceId != m.chunkSetId {
      return Failure(Mismatch);
    }
    var grouped := ExpectedReferences(m.chunks);
    if grouped.Failure? { return Failure(UnsplittableReference); }
    var expected := grouped.value;
    var keys := set d | d in c.documents :: d.sourceKey;
    var distinct := DistinctKeys(c.documents);
    if keys != expected.Keys || !distinct || (set s | s in b.sources :: s.sourceKey) != expected.Keys {
      return Failure(Mismatch);
    }
    for i := 0 to |c.documents|
      invariant forall k :: 0 <= k < i ==>
                  BoundOnce(b, c.documents[k]) && c.documents[k].references == ReferencesOf(m.chunks, c.documents[k].sourceKey)
    {
      var d := c.documents[i];
      assert d.sourceKey in keys;
      var bound := SourceBindingOf(b, d.sourceKey);
      BoundOnceIs(b, d);
      if bound.Failure? { return Failure(bound.error); }
      if d.versionId != bound.value.versionId || d.chunkSetId != bound.value.chunkSetId || d.references != expected[d.sourceKey] {
        return Failure(Mismatch);
      }
    }
    return Success(());
  }

  lemma BoundOnceIs(b: Binding, d: Document)
    ensures BoundOnce(b, d) ==> exists i :: OnlyEntry(b, d.sourceKey, i)
    ensures forall i :: OnlyEntry(b, d.sourceKey, i) ==>
              (BoundOnce(b, d) <==> b.sources[i].versionId == d.versionId && b.sources[i].chunkSetId == d.chunkSetId)
  {
  }

  method DistinctKeys(documents: seq<Document>) returns (distinct: bool)
    ensures distinct <==> forall i, j :: 0 <= i < j < |documents| ==> documents[i].sourceKey != documents[j].sourceKey
  {
    var seen: set<string> := {};
    for i := 0 to |documents|
      invariant forall k :: 0 <= k < i ==> documents[k].sourceKey in seen
      invariant forall x :: x in seen ==> exists k :: 0 <= k < i && documents[k].sourceKey == x
      invariant forall k, l :: 0 <= k < l < i ==> documents[k].sourceKey != documents[l].sourceKey
    {
      if documents[i].sourceKey in seen { return false; }
      seen := seen + {documents[i].sourceKey};
    }
    return true;
  }

  /** A closed corpus carries every chunk the manifest names in exactly one document, and no other chunk. */
  lemma ClosedCorpusIsTheManifest(b: Binding, c: Corpus, m: Manifest, reference: string)
    requires Closed(b, c, m)
    ensures reference in m.chunks <==> exists i :: 0 <= i < |c.documents| && reference in c.documents[i].references
    ensures forall i, j :: 0 <= i < j < |c.documents| ==>
              !(reference in c.documents[i].references && reference in c.documents[j].references)
  {
    if reference in m.chunks {
      var key := SourceOf(reference).value;
      assert key in Sources(m.chunks);
      assert key in (set d | d in c.documents :: d.sourceKey);
      var d :| d in c.documents && d.sourceKey == key;
      assert d.references == ReferencesOf(m.chunks, key);
    }
  }
}
