/** The durable lease store of the evaluation control plane: one ownership row per run and one
    record per operation id, both changed inside one write transaction per call.

    `Step` is what one committed call does to the two tables; `SqliteOwnershipStore` is the store
    itself, proved against `Step`. The theorems quantify over histories: every finite interleaving
    of calls by any number of workers, each with the clock reading its transaction used. */
module OwnershipStore {
  import opened Wrappers

  // ---------- entities ----------

  datatype Capability = Capability(runId: string, ownerId: string, fencing: int, expiresAt: int)

  datatype Row = Row(owner: Option<string>, fencing: int, expiresAt: Option<int>, updatedAt: int)
  {
    predicate HeldAt(now: int) {
      owner.Some? && expiresAt.Some? && expiresAt.value > now
    }
  }

  datatype Operation = Acquire | Renew | Release

  datatype Code = Ok | AcquireFailed | RenewFailed | Fenced | OperationInvalid | ReplayMismatch | ResultInvalid

  datatype OpRecord = OpRecord(opId: string, op: Operation, runId: string, ownerId: string, fencing: Option<int>,
                               expiresAt: Option<int>, duration: Option<int>, code: Code, recordedAt: int)

  datatype Tables = Tables(rows: map<string, Row>, log: seq<OpRecord>)

  datatype Request =
    | AcquireRequest(runId: string, ownerId: string, duration: int, opId: string)
    | RenewRequest(cap: Capability, duration: int, opId: string)
    | ReleaseRequest(cap: Capability, opId: string)
    | AssertRequest(cap: Capability)

  datatype Reply = Granted(cap: Capability) | Done | Rejected(code: Code)

  datatype Event = Event(request: Request, now: int)

  function Max0(x: int): int { if x > 0 then x else 0 }

  function RowOf(rows: map<string, Row>, runId: string): Option<Row> {
    if runId in rows then Some(rows[runId]) else None
  }

  /** The comparison every accepted mutation and every assertion goes through. */
  predicate Matches(row: Option<Row>, cap: Capability, now: int) {
    row.Some? && row.value.owner == Some(cap.ownerId) && row.value.fencing == cap.fencing
    && row.value.expiresAt.Some? && row.value.expiresAt.value > now
  }

  function Find(log: seq<OpRecord>, opId: string): Option<OpRecord> {
    if log == [] then None
    else if log[0].opId == opId then Some(log[0])
    else Find(log[1..], opId)
  }

  // ---------- the effect of one call ----------

  datatype Replayed = NoReplay | ReplayRejected(code: Code) | ReplayOf(record: OpRecord)

  function Replay(log: seq<OpRecord>, opId: string, op: Operation, runId: string, ownerId: string,
                  fencing: Option<int>, duration: Option<int>): Replayed {
    match Find(log, opId)
    case None => NoReplay
    case Some(r) =>
      if r.op != op || r.runId != runId || r.ownerId != ownerId || (fencing.Some? && r.fencing != fencing)
         || r.duration != duration then ReplayRejected(ReplayMismatch)
      else if r.code != Ok then ReplayRejected(r.code)
      else ReplayOf(r)
  }

  /** The answer to a repeated acquire or renew: the recorded capability while it is still current. */
  function RepeatedGrant(r: OpRecord, runId: string, ownerId: string, row: Option<Row>, now: int): Reply {
    if r.fencing.None? || r.expiresAt.None? then Rejected(ResultInvalid)
    else
      var cap := Capability(runId, ownerId, r.fencing.value, r.expiresAt.value);
      if Matches(row, cap, now) then Granted(cap) else Rejected(Fenced)
  }

  function AcquireStep(t: Tables, runId: string, ownerId: string, duration: int, opId: string, now: int): (Tables, Reply) {
    var row := RowOf(t.rows, runId);
    match Replay(t.log, opId, Acquire, runId, ownerId, None, Some(duration))
    case ReplayRejected(code) => (t, Rejected(code))
    case ReplayOf(r) => (t, RepeatedGrant(r, runId, ownerId, row, now))
    case NoReplay =>
      if runId == "" || ownerId == "" || duration <= 0 || (row.Some? && row.value.HeldAt(now)) then
        (Tables(t.rows, t.log + [OpRecord(opId, Acquire, runId, ownerId, None, None, Some(duration), AcquireFailed, now)]),
         Rejected(AcquireFailed))
      else
        var version := if row.Some? then row.value.fencing + 1 else 1;
        var expiry := now + Max0(duration);
        (Tables(t.rows[runId := Row(Some(ownerId), version, Some(expiry), now)],
                t.log + [OpRecord(opId, Acquire, runId, ownerId, Some(version), Some(expiry), Some(duration), Ok, now)]),
         Granted(Capability(runId, ownerId, version, expiry)))
  }

  function RenewStep(t: Tables, cap: Capability, duration: int, opId: string, now: int): (Tables, Reply) {
    var row := RowOf(t.rows, cap.runId);
    match Replay(t.log, opId, Renew, cap.runId, cap.ownerId, Some(cap.fencing), Some(duration))
    case ReplayRejected(code) => (t, Rejected(code))
    case ReplayOf(r) => (t, RepeatedGrant(r, cap.runId, cap.ownerId, row, now))
    case NoReplay =>
      var code := if duration <= 0 then RenewFailed else if !Matches(row, cap, now) then Fenced else Ok;
      var expiry := now + Max0(duration);
      if code != Ok then
        (Tables(t.rows, t.log + [OpRecord(opId, Renew, cap.runId, cap.ownerId, Some(cap.fencing), None, Some(duration), code, now)]),
         Rejected(code))
      else
        (Tables(t.rows[cap.runId := row.value.(expiresAt := Some(expiry), updatedAt := now)],
                t.log + [OpRecord(opId, Renew, cap.runId, cap.ownerId, Some(cap.fencing), Some(expiry), Some(duration), Ok, now)]),
         Granted(cap.(expiresAt := expiry)))
  }

  function ReleaseStep(t: Tables, cap: Capability, opId: string, now: int): (Tables, Reply) {
    var row := RowOf(t.rows, cap.runId);
    match Replay(t.log, opId, Release, cap.runId, cap.ownerId, Some(cap.fencing), None)
    case ReplayRejected(code) => (t, Rejected(code))
    case ReplayOf(r) =>
      if Matches(row, cap, now) || (row.Some? && row.value.owner.None? && row.value.fencing == cap.fencing)
      then (t, Done) else (t, Rejected(Fenced))
    case NoReplay =>
      if !Matches(row, cap, now) then
        (Tables(t.rows, t.log + [OpRecord(opId, Release, cap.runId, cap.ownerId, Some(cap.fencing), None, None, Fenced, now)]),
         Rejected(Fenced))
      else
        (Tables(t.rows[cap.runId := Row(None, cap.fencing, None, now)],
                t.log + [OpRecord(opId, Release, cap.runId, cap.ownerId, Some(cap.fencing), None, None, Ok, now)]),
         Done)
  }

  function Step(t: Tables, e: Event): (Tables, Reply) {
    match e.request
    case AssertRequest(cap) =>
      (t, if Matches(RowOf(t.rows, cap.runId), cap, e.now) then Done else Rejected(Fenced))
    case AcquireRequest(runId, ownerId, duration, opId) =>
      if opId == "" then (t, Rejected(OperationInvalid)) else AcquireStep(t, runId, ownerId, duration, opId, e.now)
    case RenewRequest(cap, duration, opId) =>
      if opId == "" then (t, Rejected(OperationInvalid)) else RenewStep(t, cap, duration, opId, e.now)
    case ReleaseRequest(cap, opId) =>
      if opId == "" then (t, Rejected(OperationInvalid)) else ReleaseStep(t, cap, opId, e.now)
  }

  // ---------- the store itself ----------

  class SqliteOwnershipStore {
    var rows: map<string, Row>
    var log: seq<OpRecord>

    /** Every call committed so far, by any worker. */
    ghost var history: seq<Event>

    ghost function Value(): Tables reads this { Tables(rows, log) }

    ghost predicate Valid() reads this { Value() == RunFrom(EMPTY, history) }

    constructor ()
      ensures Valid() && history == [] && Value() == EMPTY
    {
      rows, log, history := map[], [], [];
    }

    method Acquire(runId: string, ownerId: string, duration: int, opId: string, now: int) returns (reply: Reply)
      requires Valid()
      modifies this
      ensures Valid() && history == old(history) + [Event(AcquireRequest(runId, ownerId, duration, opId), now)]
      ensures (Value(), reply) == Step(old(Value()), Event(AcquireRequest(runId, ownerId, duration, opId), now))
    {
      history := history + [Event(AcquireRequest(runId, ownerId, duration, opId), now)];
      Extends(old(history), Event(AcquireRequest(runId, ownerId, duration, opId), now));
      hide RunFrom, RenewStep, ReleaseStep;
      if opId == "" { return Rejected(OperationInvalid); }
      var expiry := now + Max0(duration);
      var replay := Replay(log, opId, Operation.Acquire, runId, ownerId, None, Some(duration));
      match replay {
        case ReplayRejected(code) => return Rejected(code);
        case ReplayOf(r) =>
          if r.fencing.None? || r.expiresAt.None? { return Rejected(ResultInvalid); }
          var replayed := Capability(runId, ownerId, r.fencing.value, r.expiresAt.value);
          if !Matches(RowOf(rows, runId), replayed, now) { return Rejected(Fenced); }
          return Granted(replayed);
        case NoReplay =>
      }
      var code := Ok;
      var version := 0;
      if runId == "" || ownerId == "" || duration <= 0 { code := AcquireFailed; }
      if code == Ok && runId in rows {
        var current := rows[runId];
        if current.owner.Some? && current.expiresAt.Some? && current.expiresAt.value > now {
          code := AcquireFailed;
        } else {
          version := current.fencing + 1;
          rows := rows[runId := Row(Some(ownerId), version, Some(expiry), now)];
        }
      } else if code == Ok {
        version := 1;
        rows := rows[runId := Row(Some(ownerId), version, Some(expiry), now)];
      }
      var granted := code == Ok;
      log := log + [OpRecord(opId, Operation.Acquire, runId, ownerId, if granted then Some(version) else None,
                             if granted then Some(expiry) else None, Some(duration), code, now)];
      reply := if granted then Granted(Capability(runId, ownerId, version, expiry)) else Rejected(code);
    }

    method AssertCurrent(cap: Capability, now: int) returns (reply: Reply)
      requires Valid()
      modifies this
      ensures Valid() && history == old(history) + [Event(AssertRequest(cap), now)]
      ensures (Value(), reply) == Step(old(Value()), Event(AssertRequest(cap), now))
    {
      history := history + [Event(AssertRequest(cap), now)];
      Extends(old(history), Event(AssertRequest(cap), now));
      hide RunFrom, AcquireStep, RenewStep, ReleaseStep;
      reply := if Matches(RowOf(rows, cap.runId), cap, now) then Done else Rejected(Fenced);
    }

    method Renew(cap: Capability, duration: int, opId: string, now: int) returns (reply: Reply)
      requires Valid()
      modifies this
      ensures Valid() && history == old(history) + [Event(RenewRequest(cap, duration, opId), now)]
      ensures (Value(), reply) == Step(old(Value()), Event(RenewRequest(cap, duration, opId), now))
    {
      history := history + [Event(RenewRequest(cap, duration, opId), now)];
      Extends(old(history), Event(RenewRequest(cap, duration, opId), now));
      hide RunFrom, AcquireStep, ReleaseStep;
      if opId == "" { return Rejected(OperationInvalid); }
      var expiry := now + Max0(duration);
      var replay := Replay(log, opId, Operation.Renew, cap.runId, cap.ownerId, Some(cap.fencing), Some(duration));
      match replay {
        case ReplayRejected(code) => return Rejected(code);
        case ReplayOf(r) =>
          if r.fencing.None? || r.expiresAt.None? { return Rejected(ResultInvalid); }
          var replayed := Capability(cap.runId, cap.ownerId, r.fencing.value, r.expiresAt.value);
          if !Matches(RowOf(rows, cap.runId), replayed, now) { return Rejected(Fenced); }
          return Granted(replayed);
        case NoReplay =>
      }
      var code := Ok;
      if duration <= 0 { code := RenewFailed; }
      if code == Ok && !Matches(RowOf(rows, cap.runId), cap, now) { code := Fenced; }
      if code == Ok {
        rows := rows[cap.runId := rows[cap.runId].(expiresAt := Some(expiry), updatedAt := now)];
      }
      log := log + [OpRecord(opId, Operation.Renew, cap.runId, cap.ownerId, Some(cap.fencing),
                             if code == Ok then Some(expiry) else None, Some(duration), code, now)];
      reply := if code == Ok then Granted(Capability(cap.runId, cap.ownerId, cap.fencing, expiry)) else Rejected(code);
    }

    method Release(cap: Capability, opId: string, now: int) returns (reply: Reply)
      requires Valid()
      modifies this
      ensures Valid() && history == old(history) + [Event(ReleaseRequest(cap, opId), now)]
      ensures (Value(), reply) == Step(old(Value()), Event(ReleaseRequest(cap, opId), now))
    {
      history := history + [Event(ReleaseRequest(cap, opId), now)];
      Extends(old(history), Event(ReleaseRequest(cap, opId), now));
      hide RunFrom, AcquireStep, RenewStep, Find;
      if opId == "" { return Rejected(OperationInvalid); }
      var row := RowOf(rows, cap.runId);
      var replay := Replay(log, opId, Operation.Release, cap.runId, cap.ownerId, Some(cap.fencing), None);
      match replay {
        case ReplayRejected(code) => return Rejected(code);
        case ReplayOf(r) =>
          if Matches(row, cap, now) { return Done; }
          if row.Some? && row.value.owner.None? && row.value.fencing == cap.fencing { return Done; }
          return Rejected(Fenced);
        case NoReplay =>
      }
      var code := Ok;
      if !Matches(row, cap, now) {
        code := Fenced;
      } else {
        rows := rows[cap.runId := Row(None, row.value.fencing, None, now)];
      }
      log := log + [OpRecord(opId, Operation.Release, cap.runId, cap.ownerId, Some(cap.fencing), None, None, code, now)];
      reply := if code == Ok then Done else Rejected(code);
      assert Value() == ReleaseStep(old(Value()), cap, opId, now).0;
    }

    /** One committed call of any worker. */
    method Serve(e: Event) returns (reply: Reply)
      requires Valid()
      modifies this
      ensures Valid() && history == old(history) + [e]
      ensures (Value(), reply) == Step(old(Value()), e)
    {
      hide RunFrom, AcquireStep, RenewStep, ReleaseStep;
      match e.request
      case AcquireRequest(runId, ownerId, duration, opId) => reply := Acquire(runId, ownerId, duration, opId, e.now);
      case RenewRequest(cap, duration, opId) => reply := Renew(cap, duration, opId, e.now);
      case ReleaseRequest(cap, opId) => reply := Release(cap, opId, e.now);
      case AssertRequest(cap) => reply := AssertCurrent(cap, e.now);
    }

    /** Calls that other workers commit while one worker is busy elsewhere. */
    method ServeAll(h: seq<Event>)
      requires Valid()
      modifies this
      ensures Valid() && history == old(history) + h
    {
      hide RunFrom, Step;
      for i := 0 to |h|
        invariant Valid() && history == old(history) + h[..i]
      {
        var _ := Serve(h[i]);
        assert h[..i] + [h[i]] == h[..i + 1];
      }
    }
  }

  // ---------- histories ----------

  const EMPTY := Tables(map[], [])

  function RunFrom(t: Tables, h: seq<Event>): Tables
    decreases |h|
  {
    if h == [] then t else Step(RunFrom(t, h[..|h| - 1]), h[|h| - 1]).0
  }

  lemma Extends(h: seq<Event>, e: Event)
    ensures RunFrom(EMPTY, h + [e]) == Step(RunFrom(EMPTY, h), e).0
  {
    assert (h + [e])[..|h|] == h;
  }

  lemma {:induction false} RunFromConcat(t: Tables, h: seq<Event>, g: seq<Event>)
    ensures RunFrom(t, h + g) == RunFrom(RunFrom(t, h), g)
    decreases |g|
  {
    if g == [] {
      assert h + g == h;
    } else {
      RunFromConcat(t, h, g[..|g| - 1]);
      assert (h + g)[..|h + g| - 1] == h + g[..|g| - 1];
    }
  }

  /** The tables after the first `i` calls of a history that starts from an empty database. */
  function At(h: seq<Event>, i: nat): Tables
    requires i <= |h|
  {
    RunFrom(EMPTY, h[..i])
  }

  function ReplyAt(h: seq<Event>, i: nat): Reply
    requires i < |h|
  {
    Step(At(h, i), h[i]).1
  }

  lemma AtStep(h: seq<Event>, i: nat)
    requires i < |h|
    ensures At(h, i + 1) == Step(At(h, i), h[i]).0
  {
    assert h[..i + 1][..i] == h[..i];
  }

  lemma AtStart(h: seq<Event>)
    ensures At(h, 0) == EMPTY
  {
  }

  /** Call `k` committed a new OK record of `op` for the run; repeats and refusals do not. */
  ghost predicate Grants(h: seq<Event>, k: nat, op: Operation, runId: string)
    requires k < |h|
  {
    exists r: OpRecord :: At(h, k + 1).log == At(h, k).log + [r] && r.code == Ok && r.op == op && r.runId == runId
  }

  function OpIdOf(e: Event): string {
    match e.request
    case AcquireRequest(_, _, _, opId) => opId
    case RenewRequest(_, _, opId) => opId
    case ReleaseRequest(_, opId) => opId
    case AssertRequest(_) => ""
  }

  /** What one mutating call commits: nothing when its operation id is missing or already recorded;
      otherwise exactly one record, under its own operation id and clock reading, and a row change only
      with an OK record and only to that record's run. */
  ghost predicate Commits(t: Tables, t': Tables, opId: string, now: int) {
    if opId == "" || Find(t.log, opId).Some? then t' == t
    else
      && |t'.log| == |t.log| + 1 && t'.log[..|t.log|] == t.log
      && var r := t'.log[|t.log|];
      && r.opId == opId && r.recordedAt == now
      && (if r.code != Ok then t'.rows == t.rows
          else
            && t'.rows.Keys == t.rows.Keys + {r.runId}
            && t'.rows == t.rows[r.runId := t'.rows[r.runId]]
            && CommitsRow(RowOf(t.rows, r.runId), t'.rows[r.runId], r, now))
  }

  /** The row change that comes with an OK record. */
  predicate CommitsRow(row: Option<Row>, row': Row, r: OpRecord, now: int) {
    if r.op == Acquire then
      && r.expiresAt.Some? && r.expiresAt.value > now && r.fencing == Some(row'.fencing)
      && (row.Some? ==> !row.value.HeldAt(now))
      && row' == Row(Some(r.ownerId), (if row.Some? then row.value.fencing else 0) + 1, r.expiresAt, now)
    else
      && row.Some? && row.value.HeldAt(now) && r.fencing == Some(row.value.fencing) && row.value.owner == Some(r.ownerId)
      && (r.op == Renew ==> r.expiresAt.Some? && r.expiresAt.value > now)
      && row' == if r.op == Renew then row.value.(expiresAt := r.expiresAt, updatedAt := now)
                 else row.value.(owner := None, expiresAt := None, updatedAt := now)
  }

  lemma AcquireCommits(t: Tables, runId: string, ownerId: string, duration: int, opId: string, now: int)
    requires opId != ""
    ensures Commits(t, AcquireStep(t, runId, ownerId, duration, opId, now).0, opId, now)
  {
  }

  lemma RenewCommits(t: Tables, cap: Capability, duration: int, opId: string, now: int)
    requires opId != ""
    ensures Commits(t, RenewStep(t, cap, duration, opId, now).0, opId, now)
  {
  }

  lemma ReleaseCommits(t: Tables, cap: Capability, opId: string, now: int)
    requires opId != ""
    ensures Commits(t, ReleaseStep(t, cap, opId, now).0, opId, now)
  {
  }

  lemma StepCommits(t: Tables, e: Event)
    ensures Commits(t, Step(t, e).0, OpIdOf(e), e.now)
  {
    hide AcquireStep, RenewStep, ReleaseStep, CommitsRow;
    match e.request
    case AcquireRequest(runId, ownerId, duration, opId) => if opId != "" { AcquireCommits(t, runId, ownerId, duration, opId, e.now); }
    case RenewRequest(cap, duration, opId) => if opId != "" { RenewCommits(t, cap, duration, opId, e.now); }
    case ReleaseRequest(cap, opId) => if opId != "" { ReleaseCommits(t, cap, opId, e.now); }
    case AssertRequest(_) =>
  }

  /** Every capability the store hands out, first time or repeated, names the requested run and is
      current when it is handed out; acquire and renew answer nothing else but a refusal. */
  lemma GrantIsCurrent(t: Tables, e: Event)
    ensures var (t', reply) := Step(t, e);
            && (reply.Granted? ==> Matches(RowOf(t'.rows, reply.cap.runId), reply.cap, e.now))
            && (e.request.AcquireRequest? && reply.Granted? ==> reply.cap.runId == e.request.runId && reply.cap.ownerId == e.request.ownerId)
            && (e.request.RenewRequest? && reply.Granted? ==> reply.cap == e.request.cap.(expiresAt := reply.cap.expiresAt))
            && (e.request.AcquireRequest? || e.request.RenewRequest? ==> reply != Done)
  {
    hide Find;
  }

  // ---------- when a call is granted ----------

  /** No call that uses this operation id has been recorded. */
  predicate Unrecorded(t: Tables, opId: string) {
    forall i :: 0 <= i < |t.log| ==> t.log[i].opId != opId
  }

  lemma {:induction false} UnrecordedIsNotFound(log: seq<OpRecord>, opId: string)
    ensures Find(log, opId).None? <==> forall i :: 0 <= i < |log| ==> log[i].opId != opId
    decreases |log|
  {
    if log != [] {
      UnrecordedIsNotFound(log[1..], opId);
      assert forall i :: 1 <= i < |log| ==> log[i] == log[1..][i - 1];
    }
  }

  /** An assertion is accepted exactly when the row names the owner and version and has not expired. */
  lemma AssertionIff(t: Tables, cap: Capability, now: int)
    ensures var (t', reply) := Step(t, Event(AssertRequest(cap), now));
            && t' == t
            && reply == (if cap.runId in t.rows && t.rows[cap.runId].owner == Some(cap.ownerId) && t.rows[cap.runId].fencing == cap.fencing
                            && t.rows[cap.runId].expiresAt.Some? && now < t.rows[cap.runId].expiresAt.value
                         then Done else Rejected(Fenced))
  {
  }

  /** The first acquire of an operation id is granted exactly when run, owner and duration are given and nobody holds
      an unexpired lease; a grant takes over with the next version until `now + duration`. */
  lemma FirstAcquireIff(t: Tables, runId: string, ownerId: string, duration: int, opId: string, now: int)
    requires opId != "" && Unrecorded(t, opId)
    ensures var (t', reply) := Step(t, Event(AcquireRequest(runId, ownerId, duration, opId), now));
            var free := runId !in t.rows || t.rows[runId].owner.None? || t.rows[runId].expiresAt.None? || t.rows[runId].expiresAt.value <= now;
            var version := 1 + if runId in t.rows then t.rows[runId].fencing else 0;
            && (reply.Granted? <==> runId != "" && ownerId != "" && duration > 0 && free)
            && (reply.Granted? ==>
                  && reply.cap == Capability(runId, ownerId, version, now + duration)
                  && t'.rows == t.rows[runId := Row(Some(ownerId), version, Some(now + duration), now)]
                  && t'.log == t.log + [OpRecord(opId, Acquire, runId, ownerId, Some(version), Some(now + duration), Some(duration), Ok, now)])
            && (!reply.Granted? ==>
                  && reply == Rejected(AcquireFailed) && t'.rows == t.rows
                  && t'.log == t.log + [OpRecord(opId, Acquire, runId, ownerId, None, None, Some(duration), AcquireFailed, now)])
  {
    UnrecordedIsNotFound(t.log, opId);
  }

  /** The first renewal of an operation id is granted exactly when the duration is positive and an assertion of the
      capability would be accepted; it moves nothing but the expiry. */
  lemma FirstRenewIff(t: Tables, cap: Capability, duration: int, opId: string, now: int)
    requires opId != "" && Unrecorded(t, opId)
    ensures var (t', reply) := Step(t, Event(RenewRequest(cap, duration, opId), now));
            var accepted := Step(t, Event(AssertRequest(cap), now)).1 == Done;
            && (reply.Granted? <==> duration > 0 && accepted)
            && (reply.Granted? ==>
                  && cap.runId in t.rows && reply.cap == Capability(cap.runId, cap.ownerId, cap.fencing, now + duration)
                  && t'.rows == t.rows[cap.runId := Row(Some(cap.ownerId), cap.fencing, Some(now + duration), now)]
                  && t'.log == t.log + [OpRecord(opId, Renew, cap.runId, cap.ownerId, Some(cap.fencing), Some(now + duration), Some(duration), Ok, now)])
            && (!reply.Granted? ==>
                  var code := if duration <= 0 then RenewFailed else Fenced;
                  && reply == Rejected(code) && t'.rows == t.rows
                  && t'.log == t.log + [OpRecord(opId, Renew, cap.runId, cap.ownerId, Some(cap.fencing), None, Some(duration), code, now)])
  {
    UnrecordedIsNotFound(t.log, opId);
  }

  /** The first release of an operation id succeeds exactly when an assertion of the capability would be accepted; it
      frees the run and keeps its version. */
  lemma FirstReleaseIff(t: Tables, cap: Capability, opId: string, now: int)
    requires opId != "" && Unrecorded(t, opId)
    ensures var (t', reply) := Step(t, Event(ReleaseRequest(cap, opId), now));
            var accepted := Step(t, Event(AssertRequest(cap), now)).1 == Done;
            var code := if accepted then Ok else Fenced;
            && reply == (if accepted then Done else Rejected(Fenced))
            && t'.rows == (if accepted then t.rows[cap.runId := Row(None, cap.fencing, None, now)] else t.rows)
            && t'.log == t.log + [OpRecord(opId, Release, cap.runId, cap.ownerId, Some(cap.fencing), None, None, code, now)]
  {
    UnrecordedIsNotFound(t.log, opId);
  }

  // ---------- each row is the fold of its run's OK records ----------

  function Effect(row: Option<Row>, r: OpRecord): Option<Row> {
    if r.op == Acquire then Some(Row(Some(r.ownerId), if r.fencing.Some? then r.fencing.value else 0, r.expiresAt, r.recordedAt))
    else if row.None? then None
    else if r.op == Renew then Some(row.value.(expiresAt := r.expiresAt, updatedAt := r.recordedAt))
    else Some(row.value.(owner := None, expiresAt := None, updatedAt := r.recordedAt))
  }

  function Fold(log: seq<OpRecord>, runId: string): Option<Row>
    decreases |log|
  {
    if log == [] then None
    else
      var r := log[|log| - 1];
      var before := Fold(log[..|log| - 1], runId);
      if r.code == Ok && r.runId == runId then Effect(before, r) else before
  }

  function Acquisitions(log: seq<OpRecord>, runId: string): nat
    decreases |log|
  {
    if log == [] then 0
    else
      var r := log[|log| - 1];
      Acquisitions(log[..|log| - 1], runId) + (if r.code == Ok && r.runId == runId && r.op == Acquire then 1 else 0)
  }

  /** The inductive link between the two tables. */
  ghost predicate Linked(t: Tables) {
    forall runId: string ::
      && RowOf(t.rows, runId) == Fold(t.log, runId)
      && Acquisitions(t.log, runId) == (if runId in t.rows then t.rows[runId].fencing else 0)
  }

  lemma LinkedStep(t: Tables, e: Event)
    requires Linked(t)
    ensures Linked(Step(t, e).0)
  {
    hide Step;
    StepCommits(t, e);
    var t' := Step(t, e).0;
    if t' != t {
      var r := t'.log[|t'.log| - 1];
      assert t'.log[..|t'.log| - 1] == t.log;
      forall runId: string
        ensures RowOf(t'.rows, runId) == Fold(t'.log, runId)
        ensures Acquisitions(t'.log, runId) == (if runId in t'.rows then t'.rows[runId].fencing else 0)
      {
        assert RowOf(t.rows, runId) == Fold(t.log, runId);
      }
    }
  }

  /** After any history, every ownership row is the fold of that run's OK records in commit order,
      and its fencing version is the number of OK acquire records of the run. */
  lemma {:induction false} RowsAreFoldsOfTheLog(h: seq<Event>)
    ensures Linked(RunFrom(EMPTY, h))
    decreases |h|
  {
    if h != [] {
      RowsAreFoldsOfTheLog(h[..|h| - 1]);
      LinkedStep(RunFrom(EMPTY, h[..|h| - 1]), h[|h| - 1]);
    }
  }

  // ---------- fencing: an accepted capability means uninterrupted ownership ----------

  /** Twice the fencing version, plus one once that version has been released. */
  function Epoch(t: Tables, runId: string): int {
    if runId !in t.rows then 0
    else 2 * t.rows[runId].fencing + (if t.rows[runId].owner.None? then 1 else 0)
  }

  /** Epochs never fall; they rise exactly when an acquire or a release is granted. */
  lemma EpochStep(h: seq<Event>, k: nat, runId: string)
    requires k < |h|
    ensures Epoch(At(h, k), runId) <= Epoch(At(h, k + 1), runId)
    ensures Epoch(At(h, k), runId) < Epoch(At(h, k + 1), runId)
            <==> Grants(h, k, Acquire, runId) || Grants(h, k, Release, runId)
    ensures Epoch(At(h, k), runId) == Epoch(At(h, k + 1), runId) ==>
              (runId in At(h, k).rows <==> runId in At(h, k + 1).rows)
              && (runId in At(h, k).rows ==> At(h, k).rows[runId].owner == At(h, k + 1).rows[runId].owner)
    ensures runId in At(h, k).rows && At(h, k).rows[runId].owner.None? ==> !Grants(h, k, Release, runId)
  {
    hide Step, RunFrom;
    AtStep(h, k);
    RowsAreFoldsOfTheLog(h[..k]);
    var t, t' := At(h, k), At(h, k + 1);
    AcquisitionsKnown(t, runId);
    StepCommits(t, h[k]);
    if t' != t {
      var r := t'.log[|t.log|];
      assert t'.log == t.log + [r];
      forall q | t'.log == t.log + [q] ensures q == r { assert (t.log + [q])[|t.log|] == q; }
    } else {
      forall q ensures t'.log != t.log + [q] { assert |t.log + [q]| == |t.log| + 1; }
    }
  }

  lemma AcquisitionsKnown(t: Tables, runId: string)
    requires Linked(t)
    ensures runId in t.rows ==> t.rows[runId].fencing >= 0
  {
    assert RowOf(t.rows, runId) == Fold(t.log, runId);
  }

  lemma {:induction false} EpochsNeverFall(h: seq<Event>, i: nat, j: nat, runId: string)
    requires i <= j <= |h|
    ensures Epoch(At(h, i), runId) <= Epoch(At(h, j), runId)
    decreases j - i
  {
    hide RunFrom, Step;
    if i < j {
      EpochsNeverFall(h, i, j - 1, runId);
      EpochStep(h, j - 1, runId);
    }
  }

  /** A capability that is current at two points of a history was current owner throughout: between
      them no acquire and no release of the run was granted, and owner and version never moved. */
  lemma {:induction false} CurrentTwiceMeansUninterrupted(h: seq<Event>, i: nat, j: nat, cap: Capability, now: int, later: int)
    requires i <= j <= |h|
    requires Matches(RowOf(At(h, i).rows, cap.runId), cap, now)
    requires Matches(RowOf(At(h, j).rows, cap.runId), cap, later)
    ensures forall k :: i <= k < j ==> !Grants(h, k, Acquire, cap.runId) && !Grants(h, k, Release, cap.runId)
    ensures forall k :: i <= k <= j ==> cap.runId in At(h, k).rows && At(h, k).rows[cap.runId].owner == Some(cap.ownerId)
                                        && At(h, k).rows[cap.runId].fencing == cap.fencing
    decreases j - i
  {
    hide RunFrom, Step;
    forall k | i <= k <= j
      ensures Epoch(At(h, k), cap.runId) == 2 * cap.fencing
      ensures k < j ==> !Grants(h, k, Acquire, cap.runId) && !Grants(h, k, Release, cap.runId)
    {
      EpochsNeverFall(h, i, k, cap.runId);
      EpochsNeverFall(h, k, j, cap.runId);
      if k < j {
        EpochStep(h, k, cap.runId);
        EpochsNeverFall(h, k + 1, j, cap.runId);
      }
    }
    forall k | i <= k <= j
      ensures cap.runId in At(h, k).rows && At(h, k).rows[cap.runId].owner == Some(cap.ownerId)
              && At(h, k).rows[cap.runId].fencing == cap.fencing
    {
      SameEpochSameOwner(h, i, k, cap.runId);
    }
  }

  lemma {:induction false} SameEpochSameOwner(h: seq<Event>, i: nat, k: nat, runId: string)
    requires i <= k <= |h|
    requires runId in At(h, i).rows && Epoch(At(h, i), runId) == Epoch(At(h, k), runId)
    ensures runId in At(h, k).rows && At(h, k).rows[runId].owner == At(h, i).rows[runId].owner
    ensures At(h, k).rows[runId].fencing == At(h, i).rows[runId].fencing
    decreases k - i
  {
    hide RunFrom, Step;
    if i < k {
      EpochsNeverFall(h, i, k - 1, runId);
      EpochStep(h, k - 1, runId);
      SameEpochSameOwner(h, i, k - 1, runId);
    }
  }

  // ---------- repeated operation ids ----------

  predicate Uses(h: seq<Event>, opId: string) {
    exists i :: 0 <= i < |h| && OpIdOf(h[i]) == opId
  }

  /** The history without every later reuse of an operation id. */
  function FirstUses(h: seq<Event>): seq<Event>
    decreases |h|
  {
    if h == [] then []
    else
      var before, e := h[..|h| - 1], h[|h| - 1];
      if OpIdOf(e) != "" && Uses(before, OpIdOf(e)) then FirstUses(before) else FirstUses(before) + [e]
  }

  lemma {:induction false} FindAppend(log: seq<OpRecord>, r: OpRecord, opId: string)
    ensures Find(log + [r], opId) == if Find(log, opId).Some? then Find(log, opId) else if r.opId == opId then Some(r) else None
  {
    if log != [] {
      FindAppend(log[1..], r, opId);
      assert (log + [r])[1..] == log[1..] + [r];
    }
  }

  /** An operation id is recorded exactly when some call has used it. */
  lemma {:induction false} RecordedIffUsed(h: seq<Event>, opId: string)
    requires opId != ""
    ensures Find(RunFrom(EMPTY, h).log, opId).Some? <==> Uses(h, opId)
    decreases |h|
  {
    if h != [] {
      var before, e := h[..|h| - 1], h[|h| - 1];
      RecordedIffUsed(before, opId);
      var t, t' := RunFrom(EMPTY, before), RunFrom(EMPTY, h);
      assert t' == Step(t, e).0;
      hide Step, RunFrom, Uses;
      StepCommits(t, e);
      if OpIdOf(e) != "" && Find(t.log, OpIdOf(e)).None? {
        assert t'.log == t.log + [t'.log[|t.log|]];
        FindAppend(t.log, t'.log[|t.log|], opId);
      }
      UsesLast(h, opId);
    }
  }

  lemma UsesLast(h: seq<Event>, opId: string)
    requires h != []
    ensures Uses(h, opId) <==> Uses(h[..|h| - 1], opId) || OpIdOf(h[|h| - 1]) == opId
  {
    hide OpIdOf;
    var before := h[..|h| - 1];
    if Uses(h, opId) {
      var i :| 0 <= i < |h| && OpIdOf(h[i]) == opId;
      if i < |before| { assert OpIdOf(before[i]) == opId; }
    }
    if Uses(before, opId) {
      var i :| 0 <= i < |before| && OpIdOf(before[i]) == opId;
      assert OpIdOf(h[i]) == opId;
    }
  }

  /** Reusing an operation id changes nothing, so any history ends in the same two tables as the
      history with every later reuse removed. */
  lemma {:induction false} RepeatsAreInvisible(h: seq<Event>)
    ensures RunFrom(EMPTY, FirstUses(h)) == RunFrom(EMPTY, h)
    decreases |h|
  {
    if h != [] {
      var before, e := h[..|h| - 1], h[|h| - 1];
      RepeatsAreInvisible(before);
      hide Step, CommitsRow;
      if OpIdOf(e) != "" && Uses(before, OpIdOf(e)) {
        RecordedIffUsed(before, OpIdOf(e));
        StepCommits(RunFrom(EMPTY, before), e);
      } else {
        assert (FirstUses(before) + [e])[..|FirstUses(before)|] == FirstUses(before);
      }
    }
  }

  lemma {:induction false} RecordsStay(h: seq<Event>, i: nat, j: nat, opId: string)
    requires i <= j <= |h| && Find(At(h, i).log, opId).Some?
    ensures Find(At(h, j).log, opId) == Find(At(h, i).log, opId)
    decreases j - i
  {
    if i < j {
      hide Step, RunFrom, CommitsRow;
      RecordsStay(h, i, j - 1, opId);
      AtStep(h, j - 1);
      var t, t' := At(h, j - 1), At(h, j);
      StepCommits(t, h[j - 1]);
      if t' != t {
        assert t'.log == t.log + [t'.log[|t.log|]];
        FindAppend(t.log, t'.log[|t.log|], opId);
      }
    }
  }

  /** A released run stays released, in the same epoch, until the next granted acquire. */
  lemma {:induction false} ReleasedUntilAcquired(h: seq<Event>, i: nat, j: nat, runId: string)
    requires i <= j <= |h|
    requires runId in At(h, i).rows && At(h, i).rows[runId].owner.None?
    ensures Epoch(At(h, i), runId) < Epoch(At(h, j), runId) <==> exists k :: i <= k < j && Grants(h, k, Acquire, runId)
    decreases j - i
  {
    hide RunFrom, Step;
    if i < j {
      ReleasedUntilAcquired(h, i, j - 1, runId);
      EpochsNeverFall(h, i, j - 1, runId);
      EpochStep(h, j - 1, runId);
      if Epoch(At(h, i), runId) == Epoch(At(h, j - 1), runId) {
        SameEpochSameOwner(h, i, j - 1, runId);
      }
    }
  }

  /** A repeat of a granted release, for the same run, owner and version, succeeds exactly until the next
      granted acquire of the run, and never because the capability still matches the row. The expiry that
      the repeated capability carries plays no part. */
  lemma ReleaseRetrySucceedsUntilReacquired(h: seq<Event>, i: nat, j: nat, cap: Capability, again: Capability, opId: string)
    requires i < j < |h| && opId != ""
    requires h[i].request == ReleaseRequest(cap, opId) && h[j].request == ReleaseRequest(again, opId)
    requires again.runId == cap.runId && again.ownerId == cap.ownerId && again.fencing == cap.fencing
    requires Grants(h, i, Release, cap.runId)
    ensures !Matches(RowOf(At(h, j).rows, cap.runId), again, h[j].now)
    ensures ReplyAt(h, j) == Done <==> !exists k :: i < k < j && Grants(h, k, Acquire, cap.runId)
    ensures ReplyAt(h, j) == Done || ReplyAt(h, j) == Rejected(Fenced)
  {
    hide RunFrom, AcquireStep, RenewStep;
    AtStep(h, i);
    var t, t' := At(h, i), At(h, i + 1);
    var r :| t'.log == t.log + [r] && r.code == Ok && r.op == Release && r.runId == cap.runId;
    assert t'.log[|t.log|] == r;
    FindAppend(t.log, r, opId);
    assert Epoch(t', cap.runId) == 2 * cap.fencing + 1;
    RecordsStay(h, i + 1, j, opId);
    EpochsNeverFall(h, i + 1, j, cap.runId);
    ReleasedUntilAcquired(h, i + 1, j, cap.runId);
    if Epoch(At(h, j), cap.runId) == 2 * cap.fencing + 1 {
      SameEpochSameOwner(h, i + 1, j, cap.runId);
    }
  }

  /** Two calls ask for the same thing: the same operation for the same run and owner with the same duration, and
      on the same version when they present one. The expiry of a presented capability is not compared. */
  predicate SameIntent(a: Request, b: Request) {
    match a
    case AcquireRequest(runId, ownerId, duration, _) =>
      b.AcquireRequest? && b.runId == runId && b.ownerId == ownerId && b.duration == duration
    case RenewRequest(cap, duration, _) =>
      b.RenewRequest? && b.cap.(expiresAt := cap.expiresAt) == cap && b.duration == duration
    case ReleaseRequest(cap, _) => b.ReleaseRequest? && b.cap.(expiresAt := cap.expiresAt) == cap
    case AssertRequest(_) => false
  }

  /** What a later call with an operation id is answered, given the first call that used it: a different request is
      refused as a mismatch, a refusal is repeated, and a granted acquire or renewal returns the recorded
      capability exactly while that is current. */
  lemma RepeatIsAnswered(h: seq<Event>, i: nat, j: nat)
    requires i < j < |h| && OpIdOf(h[i]) != "" && OpIdOf(h[j]) == OpIdOf(h[i])
    requires forall k :: 0 <= k < i ==> OpIdOf(h[k]) != OpIdOf(h[i])
    ensures !SameIntent(h[i].request, h[j].request) ==> ReplyAt(h, j) == Rejected(ReplayMismatch)
    ensures SameIntent(h[i].request, h[j].request) && ReplyAt(h, i).Rejected? ==> ReplyAt(h, j) == ReplyAt(h, i)
    ensures SameIntent(h[i].request, h[j].request) && ReplyAt(h, i).Granted? ==>
              ReplyAt(h, j) == if Step(At(h, j), Event(AssertRequest(ReplyAt(h, i).cap), h[j].now)).1 == Done
                               then ReplyAt(h, i) else Rejected(Fenced)
  {
    hide RunFrom;
    var opId := OpIdOf(h[i]);
    assert !Uses(h[..i], opId) by { NotUsedBefore(h, i, opId); }
    RecordedIffUsed(h[..i], opId);
    AtStep(h, i);
    FirstIsRecorded(At(h, i), h[i]);
    RecordsStay(h, i + 1, j, opId);
    RepeatOf(At(h, i), h[i], At(h, j), h[j]);
  }

  lemma NotUsedBefore(h: seq<Event>, i: nat, opId: string)
    requires i <= |h| && forall k :: 0 <= k < i ==> OpIdOf(h[k]) != opId
    ensures !Uses(h[..i], opId)
  {
  }

  lemma FirstIsRecorded(t: Tables, e: Event)
    requires OpIdOf(e) != "" && Find(t.log, OpIdOf(e)).None?
    ensures |Step(t, e).0.log| == |t.log| + 1 && Find(Step(t, e).0.log, OpIdOf(e)) == Some(Step(t, e).0.log[|t.log|])
  {
    hide Step, CommitsRow;
    StepCommits(t, e);
    var t' := Step(t, e).0;
    assert t'.log == t.log + [t'.log[|t.log|]];
    FindAppend(t.log, t'.log[|t.log|], OpIdOf(e));
  }

  lemma RepeatOf(t: Tables, first: Event, u: Tables, e: Event)
    requires OpIdOf(first) != "" && OpIdOf(e) == OpIdOf(first) && Find(t.log, OpIdOf(first)).None?
    requires |Step(t, first).0.log| == |t.log| + 1 && Find(u.log, OpIdOf(e)) == Some(Step(t, first).0.log[|t.log|])
    ensures var (granted, reply) := (Step(t, first).1, Step(u, e).1);
            && (!SameIntent(first.request, e.request) ==> reply == Rejected(ReplayMismatch))
            && (SameIntent(first.request, e.request) && granted.Rejected? ==> reply == granted)
            && (SameIntent(first.request, e.request) && granted.Granted? ==>
                  reply == if Step(u, Event(AssertRequest(granted.cap), e.now)).1 == Done then granted else Rejected(Fenced))
  {
    hide Find;
  }

  // ---------- holding intervals ----------

  datatype Hold = Hold(version: int, start: int, end: int)

  /** The holding intervals of a run, read off its OK records: from the grant to the release, or to
      the last renewed expiry. */
  function Holds(log: seq<OpRecord>, runId: string): seq<Hold>
    decreases |log|
  {
    if log == [] then []
    else
      var r := log[|log| - 1];
      var before := Holds(log[..|log| - 1], runId);
      if r.code == Ok && r.runId == runId then Extended(before, r) else before
  }

  function Extended(hs: seq<Hold>, r: OpRecord): seq<Hold> {
    if r.op == Acquire then
      hs + [Hold(if r.fencing.Some? then r.fencing.value else 0, r.recordedAt, if r.expiresAt.Some? then r.expiresAt.value else 0)]
    else if hs == [] then []
    else hs[|hs| - 1 := hs[|hs| - 1].(end := if r.op == Renew && r.expiresAt.Some? then r.expiresAt.value else r.recordedAt)]
  }

  predicate ClockOrdered(h: seq<Event>) {
    forall i, j :: 0 <= i < j < |h| ==> h[i].now <= h[j].now
  }

  /** What ties a run's intervals to its row at the latest clock reading `now`. */
  ghost predicate Tied(hs: seq<Hold>, row: Option<Row>, now: int) {
    && (hs == [] <==> row.None?)
    && (forall i :: 0 <= i < |hs| ==> hs[i].version == i + 1 && hs[i].start <= hs[i].end && hs[i].start <= now)
    && (forall i, j :: 0 <= i < j < |hs| ==> hs[i].end <= hs[j].start)
    && (row.Some? ==>
          && row.value.fencing == |hs|
          && (row.value.owner.Some? ==> row.value.expiresAt == Some(hs[|hs| - 1].end))
          && (row.value.owner.None? ==> hs[|hs| - 1].end <= now))
  }

  ghost predicate HoldsTied(t: Tables, runId: string, now: int) {
    Tied(Holds(t.log, runId), RowOf(t.rows, runId), now)
  }

  lemma HoldsStep(t: Tables, e: Event, runId: string, before: int)
    requires HoldsTied(t, runId, before) && before <= e.now
    ensures HoldsTied(Step(t, e).0, runId, e.now)
  {
    hide Step, Tied, Extended;
    StepCommits(t, e);
    var t' := Step(t, e).0;
    var hs, row, row' := Holds(t.log, runId), RowOf(t.rows, runId), RowOf(t'.rows, runId);
    TiedLater(hs, row, before, e.now);
    if t' != t {
      var r := t'.log[|t.log|];
      assert t'.log[..|t'.log| - 1] == t.log;
      if r.code == Ok && r.runId == runId {
        if r.op == Acquire {
          TiedAcquire(hs, row, r, e.now);
        } else {
          TiedUpdate(hs, row, r, e.now);
        }
      }
    }
  }

  lemma TiedLater(hs: seq<Hold>, row: Option<Row>, before: int, now: int)
    requires Tied(hs, row, before) && before <= now
    ensures Tied(hs, row, now)
  {
  }

  lemma TiedAcquire(hs: seq<Hold>, row: Option<Row>, r: OpRecord, now: int)
    requires Tied(hs, row, now) && r.op == Acquire && r.recordedAt == now
    requires r.expiresAt.Some? && r.expiresAt.value > now
    requires r.fencing == Some((if row.Some? then row.value.fencing else 0) + 1)
    requires row.Some? ==> !row.value.HeldAt(now)
    ensures Tied(Extended(hs, r), Some(Row(Some(r.ownerId), r.fencing.value, r.expiresAt, now)), now)
  {
  }

  lemma TiedUpdate(hs: seq<Hold>, row: Option<Row>, r: OpRecord, now: int)
    requires Tied(hs, row, now) && row.Some? && row.value.HeldAt(now) && r.op != Acquire && r.recordedAt == now
    requires r.op == Renew ==> r.expiresAt.Some? && r.expiresAt.value > now
    ensures Tied(Extended(hs, r),
                 Some(if r.op == Renew then row.value.(expiresAt := r.expiresAt, updatedAt := now)
                      else row.value.(owner := None, expiresAt := None, updatedAt := now)), now)
  {
  }

  lemma {:induction false} HoldsTiedAlways(h: seq<Event>, runId: string)
    requires ClockOrdered(h) && h != []
    ensures HoldsTied(RunFrom(EMPTY, h), runId, h[|h| - 1].now)
    decreases |h|
  {
    if |h| == 1 {
      assert RunFrom(EMPTY, h[..0]) == EMPTY;
      HoldsStep(EMPTY, h[0], runId, h[0].now);
    } else {
      HoldsTiedAlways(h[..|h| - 1], runId);
      HoldsStep(RunFrom(EMPTY, h[..|h| - 1]), h[|h| - 1], runId, h[|h| - 2].now);
    }
  }

  /** With clock readings that do not run backwards, the holding intervals of one run are disjoint and
      ordered by fencing version, however renewals lengthen or shorten the lease. */
  lemma HoldsAreDisjointAndOrdered(h: seq<Event>, runId: string, i: nat, j: nat)
    requires ClockOrdered(h)
    requires i < j < |Holds(RunFrom(EMPTY, h).log, runId)|
    ensures var hs := Holds(RunFrom(EMPTY, h).log, runId);
            && hs[i].start <= hs[i].end <= hs[j].start <= hs[j].end
            && hs[i].version < hs[j].version
  {
    HoldsTiedAlways(h, runId);
  }

  /** Later calls never cut an interval short of a time at which it was already held. */
  lemma HoldKept(t: Tables, e: Event, runId: string, i: nat, time: int)
    requires i < |Holds(t.log, runId)| && time <= e.now
    requires Holds(t.log, runId)[i].start <= time <= Holds(t.log, runId)[i].end
    ensures var hs := Holds(Step(t, e).0.log, runId);
            i < |hs| && hs[i].version == Holds(t.log, runId)[i].version && hs[i].start <= time <= hs[i].end
  {
    hide Step;
    StepCommits(t, e);
    var t' := Step(t, e).0;
    if t' != t { assert t'.log[..|t'.log| - 1] == t.log; }
  }

  /** Every accepted assertion lies inside the holding interval of the version it presents. By
      `HoldsAreDisjointAndOrdered` its clock reading is at most a boundary of another version's interval. */
  lemma {:induction false} AcceptedWhileHolding(h: seq<Event>, i: nat, cap: Capability)
    requires ClockOrdered(h) && i < |h|
    requires Matches(RowOf(At(h, i).rows, cap.runId), cap, h[i].now)
    ensures var hs := Holds(RunFrom(EMPTY, h).log, cap.runId);
            1 <= cap.fencing <= |hs| && hs[cap.fencing - 1].start <= h[i].now <= hs[cap.fencing - 1].end
    decreases |h|
  {
    hide RunFrom, Step;
    var last := |h| - 1;
    var before, t := h[..last], RunFrom(EMPTY, h[..last]);
    assert before[..i] == h[..i];
    assert before + [h[last]] == h;
    Extends(before, h[last]);
    AtStart(h);
    HoldsTiedAlways(before, cap.runId);
    if i < last { AcceptedWhileHolding(before, i, cap); }
    HoldKept(t, h[last], cap.runId, cap.fencing - 1, h[i].now);
  }

  /** With an ordered clock, a first acquire is granted exactly when the last holding interval of the run is over. */
  lemma AcquireGrantedIffHoldIsOver(h: seq<Event>, i: nat)
    requires ClockOrdered(h) && i < |h| && h[i].request.AcquireRequest?
    requires h[i].request.runId != "" && h[i].request.ownerId != "" && h[i].request.duration > 0 && h[i].request.opId != ""
    requires forall k :: 0 <= k < i ==> OpIdOf(h[k]) != h[i].request.opId
    ensures var hs := Holds(At(h, i).log, h[i].request.runId);
            ReplyAt(h, i).Granted? <==> hs == [] || hs[|hs| - 1].end <= h[i].now
  {
    hide RunFrom, Step, Holds;
    var r, t := h[i].request, At(h, i);
    NotUsedBefore(h, i, r.opId);
    RecordedIffUsed(h[..i], r.opId);
    UnrecordedIsNotFound(t.log, r.opId);
    FirstAcquireIff(t, r.runId, r.ownerId, r.duration, r.opId, h[i].now);
    if i == 0 {
      AtStart(h);
      NothingHeld(r.runId);
    } else {
      HoldsTiedAlways(h[..i], r.runId);
      TiedLater(Holds(t.log, r.runId), RowOf(t.rows, r.runId), h[i - 1].now, h[i].now);
    }
  }

  lemma NothingHeld(runId: string)
    ensures Holds(EMPTY.log, runId) == []
  {
  }
}
