/** The object that seals one evaluation run: it keeps a capability from the ownership store and brackets
    every closure check between two assertions of it. Other workers use the same store at any time; the
    calls they commit while a method of this object is busy are its `others` argument. */
module EvaluationSeal {
  import opened Wrappers
  import opened OwnershipStore
  import opened CorpusClosure

  datatype SealFailure = Ownership(code: Code) | SealRequired | ClosureFailed(closure: ClosureError) | EnvironmentDrift

  datatype SealedRun = SealedRun(runId: string, environment: Option<Binding>)

  /** From call `from` on, the run never changed hands, and its row always carried this owner and version. */
  ghost predicate Uninterrupted(h: seq<Event>, from: nat, cap: Capability) {
    && from <= |h|
    && (forall k :: from <= k < |h| ==> !Grants(h, k, Acquire, cap.runId) && !Grants(h, k, Release, cap.runId))
    && (forall k :: from <= k <= |h| ==> cap.runId in At(h, k).rows && At(h, k).rows[cap.runId].owner == Some(cap.ownerId)
                                         && At(h, k).rows[cap.runId].fencing == cap.fencing)
  }

  class EvaluationEnvironmentSeal {
    const store: SqliteOwnershipStore
    const ownerId: string
    const leaseDuration: int
    var capability: Option<Capability>
    var sealedRun: Option<SealedRun>
    var lastOperationId: string

    /** Where in the store's history the captured environment was first asserted, and the clock reading used. */
    ghost var capturedAt: nat
    ghost var capturedNow: int

    ghost predicate Valid()
      reads this, store
    {
      && store.Valid()
      && (sealedRun.Some? && sealedRun.value.environment.Some? ==>
            && capability.Some? && capturedAt <= |store.history|
            && Matches(RowOf(At(store.history, capturedAt).rows, capability.value.runId), capability.value, capturedNow))
    }

    constructor (store: SqliteOwnershipStore, ownerId: string, leaseDuration: int)
      requires store.Valid()
      ensures Valid() && this.store == store && capability.None? && sealedRun.None?
    {
      this.store, this.ownerId, this.leaseDuration := store, ownerId, leaseDuration;
      capability, sealedRun, lastOperationId := None, None, "";
      capturedAt, capturedNow := 0, 0;
    }

    method Acquire(runId: string, opId: string, now: int) returns (r: Result<Capability, SealFailure>)
      requires Valid()
      modifies this, store
      ensures Valid() && lastOperationId == opId
      ensures store.history == old(store.history) + [Event(AcquireRequest(runId, ownerId, leaseDuration, opId), now)]
      ensures r.Success? ==> capability == Some(r.value) && sealedRun == Some(SealedRun(runId, None))
                             && Matches(RowOf(store.rows, runId), r.value, now)
      ensures r.Failure? ==> unchanged(`capability) && unchanged(`sealedRun)
      ensures r == match Step(old(store.Value()), Event(AcquireRequest(runId, ownerId, leaseDuration, opId), now)).1
                   case Granted(cap) => Success(cap) case Rejected(code) => Failure(Ownership(code)) case Done => r
    {
      hide RunFrom, AcquireStep, RenewStep, ReleaseStep;
      lastOperationId := opId;
      GrantIsCurrent(store.Value(), Event(AcquireRequest(runId, ownerId, leaseDuration, opId), now));
      var reply := store.Acquire(runId, ownerId, leaseDuration, opId, now);
      PrefixKept(old(store.history), store.history, capturedAt);
      match reply {
        case Rejected(code) => return Failure(Ownership(code));
        case Granted(cap) =>
          capability := Some(cap);
          sealedRun := Some(SealedRun(runId, None));
          return Success(cap);
        case Done => assert false; return Failure(SealRequired);
      }
    }

    method AssertCurrent(cap: Capability, opId: string, now: int) returns (r: Result<(), SealFailure>)
      requires Valid()
      modifies this`lastOperationId, store
      ensures Valid() && store.history == old(store.history) + [Event(AssertRequest(cap), now)]
      ensures r == if Matches(RowOf(old(store.rows), cap.runId), cap, now) then Success(()) else Failure(Ownership(Fenced))
      ensures lastOperationId == opId && store.Value() == old(store.Value())
    {
      hide RunFrom, AcquireStep, RenewStep, ReleaseStep;
      lastOperationId := opId;
      var reply := store.AssertCurrent(cap, now);
      PrefixKept(old(store.history), store.history, capturedAt);
      r := if reply.Rejected? then Failure(Ownership(reply.code)) else Success(());
    }

    /** Succeeds only with the corpus closed and the run never changing hands from the first assertion to
        the second, whatever other workers committed in between. */
    method CapturePreflight(binding: Binding, corpus: Corpus, manifest: Manifest, others: seq<Event>, first: int, second: int)
      returns (r: Result<Binding, SealFailure>)
      requires Valid()
      modifies this, store
      ensures Valid() && |old(store.history)| <= |store.history| && store.history[..|old(store.history)|] == old(store.history)
      ensures capability == old(capability)
      ensures r.Success? ==> r.value == binding && Closed(binding, corpus, manifest) && capability.Some?
                             && sealedRun == Some(SealedRun(capability.value.runId, Some(binding)))
                             && Uninterrupted(store.history, |old(store.history)|, capability.value)
      ensures r.Failure? ==> sealedRun == old(sealedRun)
      ensures r.Success? <==>
                capability.Some? && Closed(binding, corpus, manifest)
                && Matches(RowOf(old(store.rows), capability.value.runId), capability.value, first)
                && Matches(RowOf(RunFrom(old(store.Value()), others).rows, capability.value.runId), capability.value, second)
      ensures r.Success? ==>
                store.history == old(store.history) + [Event(AssertRequest(capability.value), first)] + others
                                 + [Event(AssertRequest(capability.value), second)]
      ensures r.Failure? ==>
                if capability.None? then r.error == SealRequired && store.history == old(store.history)
                else if !Matches(RowOf(old(store.rows), capability.value.runId), capability.value, first) then r.error == Ownership(Fenced)
                else if !Closed(binding, corpus, manifest) then r.error.ClosureFailed? else r.error == Ownership(Fenced)
    {
      hide RunFrom, AcquireStep, RenewStep, ReleaseStep, Closed;
      if capability.None? { return Failure(SealRequired); }
      var cap := capability.value;
      ghost var start := store.history;
      var before := AssertCurrent(cap, "", first);
      if before.Failure? { return Failure(before.error); }
      assert start[..|start|] == start;
      assert store.history[..|start|] == start;
      var closure := VerifyCorpusClosure(binding, corpus, manifest);
      if closure.Failure? { return Failure(ClosureFailed(closure.error)); }
      ghost var held := store.history;
      RunFromConcat(EMPTY, held, others);
      store.ServeAll(others);
      PrefixKept(held, store.history, capturedAt);
      assert store.history[..|start|] == start;
      ghost var checked := store.history;
      var after := AssertCurrent(cap, "", second);
      assert store.history[..|start|] == start && store.history[..|checked|] == checked[..|checked|];
      if after.Failure? { return Failure(after.error); }
      BracketedOwnership(store.history, |start|, |checked|, cap, first, second);
      sealedRun := Some(SealedRun(cap.runId, Some(binding)));
      capturedAt, capturedNow := |start|, first;
      return Success(binding);
    }

    /** Succeeds only when the sealed binding is unchanged, the corpus is still closed, and ownership never
        changed hands since the environment was captured. */
    method VerifyUnchanged(binding: Binding, corpus: Corpus, manifest: Manifest, others: seq<Event>, first: int, second: int)
      returns (r: Result<(), SealFailure>)
      requires Valid()
      modifies this, store
      ensures Valid() && |old(store.history)| <= |store.history| && store.history[..|old(store.history)|] == old(store.history)
      ensures capability == old(capability) && sealedRun == old(sealedRun) && capturedAt == old(capturedAt)
      ensures r.Success? ==> capability.Some? && Closed(binding, corpus, manifest)
                             && sealedRun.Some? && sealedRun.value.environment == Some(binding)
                             && Uninterrupted(store.history, capturedAt, capability.value)
      ensures r.Success? <==>
                capability.Some? && Closed(binding, corpus, manifest) && sealedRun.Some? && sealedRun.value.environment == Some(binding)
                && Matches(RowOf(old(store.rows), capability.value.runId), capability.value, first)
                && Matches(RowOf(RunFrom(old(store.Value()), others).rows, capability.value.runId), capability.value, second)
      ensures r.Failure? ==>
                if capability.None? then r.error == SealRequired && store.history == old(store.history)
                else if !Matches(RowOf(old(store.rows), capability.value.runId), capability.value, first) then r.error == Ownership(Fenced)
                else if sealedRun.None? || sealedRun.value.environment.None? then r.error == SealRequired
                else if sealedRun.value.environment != Some(binding) then r.error == EnvironmentDrift
                else if !Closed(binding, corpus, manifest) then r.error == EnvironmentDrift || r.error == ClosureFailed(UnsplittableReference)
                else r.error == Ownership(Fenced)
    {
      hide RunFrom, AcquireStep, RenewStep, ReleaseStep, Closed;
      if capability.None? { return Failure(SealRequired); }
      var cap := capability.value;
      ghost var start := store.history;
      var before := AssertCurrent(cap, "", first);
      if before.Failure? { return Failure(before.error); }
      assert store.history[..|start|] == start;
      if sealedRun.None? || sealedRun.value.environment.None? { return Failure(SealRequired); }
      if binding != sealedRun.value.environment.value { return Failure(EnvironmentDrift); }
      var closure := VerifyCorpusClosure(binding, corpus, manifest);
      if closure.Failure? {
        return Failure(if closure.error == UnsplittableReference then ClosureFailed(closure.error) else EnvironmentDrift);
      }
      ghost var held := store.history;
      RunFromConcat(EMPTY, held, others);
      store.ServeAll(others);
      PrefixKept(held, store.history, capturedAt);
      assert store.history[..|start|] == start;
      ghost var checked := store.history;
      var after := AssertCurrent(cap, "", second);
      assert store.history[..|start|] == start && store.history[..|checked|] == checked[..|checked|];
      if after.Failure? { return Failure(after.error); }
      BracketedOwnership(store.history, capturedAt, |checked|, cap, capturedNow, second);
      return Success(());
    }

    method Release(opId: string, now: int) returns (r: Result<(), SealFailure>)
      requires Valid()
      modifies this, store
      ensures Valid()
      ensures r.Success? ==> old(capability).Some? && capability.None? && sealedRun.None?
      ensures r.Failure? ==> capability == old(capability) && sealedRun == old(sealedRun)
      ensures old(capability).None? ==> r == Failure(SealRequired) && store.history == old(store.history)
      ensures old(capability).Some? ==>
                lastOperationId == opId && store.history == old(store.history) + [Event(ReleaseRequest(old(capability).value, opId), now)]
                && r == match Step(old(store.Value()), Event(ReleaseRequest(old(capability).value, opId), now)).1
                        case Rejected(code) => Failure(Ownership(code)) case _ => Success(())
    {
      hide RunFrom, AcquireStep, RenewStep, ReleaseStep;
      if capability.None? { return Failure(SealRequired); }
      lastOperationId := opId;
      var reply := store.Release(capability.value, opId, now);
      PrefixKept(old(store.history), store.history, capturedAt);
      if reply.Rejected? { return Failure(Ownership(reply.code)); }
      capability := None;
      sealedRun := None;
      return Success(());
    }

    /** Renewal keeps run, owner and version, so a captured environment stays captured. */
    method Renew(opId: string, now: int) returns (r: Result<Capability, SealFailure>)
      requires Valid()
      modifies this, store
      ensures Valid() && sealedRun == old(sealedRun)
      ensures r.Success? ==> old(capability).Some? && capability == Some(r.value)
                             && r.value == old(capability).value.(expiresAt := r.value.expiresAt)
                             && Matches(RowOf(store.rows, r.value.runId), r.value, now)
      ensures r.Failure? ==> capability == old(capability)
      ensures old(capability).None? ==> r == Failure(SealRequired) && store.history == old(store.history)
      ensures old(capability).Some? ==>
                lastOperationId == opId && store.history == old(store.history) + [Event(RenewRequest(old(capability).value, leaseDuration, opId), now)]
                && r == match Step(old(store.Value()), Event(RenewRequest(old(capability).value, leaseDuration, opId), now)).1
                        case Granted(cap) => Success(cap) case Rejected(code) => Failure(Ownership(code)) case Done => r
    {
      hide RunFrom, AcquireStep, RenewStep, ReleaseStep;
      if capability.None? { return Failure(SealRequired); }
      lastOperationId := opId;
      GrantIsCurrent(store.Value(), Event(RenewRequest(capability.value, leaseDuration, opId), now));
      var reply := store.Renew(capability.value, leaseDuration, opId, now);
      PrefixKept(old(store.history), store.history, capturedAt);
      match reply {
        case Rejected(code) => return Failure(Ownership(code));
        case Granted(cap) =>
          capability := Some(cap);
          return Success(cap);
        case Done => assert false; return Failure(SealRequired);
      }
    }
  }

  lemma PrefixKept(h: seq<Event>, longer: seq<Event>, i: nat)
    requires |h| <= |longer| && longer[..|h|] == h
    ensures i <= |h| ==> At(longer, i) == At(h, i)
  {
    if i <= |h| { assert longer[..i] == h[..i]; }
  }

  /** Two assertions of one capability, the last of them the latest call, bracket uninterrupted ownership. */
  lemma BracketedOwnership(h: seq<Event>, from: nat, last: nat, cap: Capability, now: int, later: int)
    requires from <= last && |h| == last + 1 && h[last] == Event(AssertRequest(cap), later)
    requires Matches(RowOf(At(h, from).rows, cap.runId), cap, now)
    requires Matches(RowOf(At(h, last).rows, cap.runId), cap, later)
    ensures Uninterrupted(h, from, cap)
  {
    AtStep(h, last);
    assert Matches(RowOf(At(h, |h|).rows, cap.runId), cap, later);
    CurrentTwiceMeansUninterrupted(h, from, |h|, cap, now, later);
  }
}
