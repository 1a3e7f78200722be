/** Follow-up cases after a crash.

    A collection reads or publishes one row per case, in the order of the dataset, and sends a follow-up only
    when it holds a good row of the parent. It publishes a row for a follow-up without sending when it does
    not. Such a row can be retried, so it is the only way in which a case that was reserved before a crash is
    sent again. This module says exactly when that way is open. */
module FollowUps {
  import opened Wrappers
  import opened ProcessRuns
  import opened ReportDispatch

  // ---------- datasets ----------

  predicate Precedes(cases: seq<string>, x: string, y: string) {
    exists i, j :: 0 <= i < j < |cases| && cases[i] == x && cases[j] == y
  }

  /** What the loader of a dataset checks: ids are distinct and parents precede their follow-ups. */
  predicate Loadable(data: Dataset) {
    && (forall i, j :: 0 <= i < j < |data.cases| ==> data.cases[i] != data.cases[j])
    && (forall id :: id in data.parents ==> Precedes(data.cases, data.parents[id], id))
  }

  /** The collections started in these steps work on the dataset. */
  predicate Over(h: seq<Label>, data: Dataset) {
    forall i :: 0 <= i < |h| && h[i].Spawn? && h[i].kind.Collect? ==> h[i].kind.data == data
  }

  /** What is left of the cases. */
  predicate Rest(todo: seq<string>, cases: seq<string>) {
    |todo| <= |cases| && todo == cases[|cases| - |todo|..]
  }

  lemma RestDistinct(data: Dataset, todo: seq<string>)
    requires Loadable(data) && Rest(todo, data.cases)
    ensures forall i, j :: 0 <= i < j < |todo| ==> todo[i] != todo[j]
  {
  }

  lemma SameIndex(data: Dataset, i: nat, j: nat)
    requires Loadable(data) && i < |data.cases| && j < |data.cases|
    ensures data.cases[i] == data.cases[j] ==> i == j
  {
  }

  /** When a follow-up is next, its parent is not still to come. */
  lemma ParentIsBehind(data: Dataset, todo: seq<string>)
    requires Loadable(data) && Rest(todo, data.cases) && todo != [] && todo[0] in data.parents
    ensures data.parents[todo[0]] !in todo
  {
    var parent, id, k := data.parents[todo[0]], todo[0], |data.cases| - |todo|;
    assert Precedes(data.cases, parent, id);
    hide Loadable;
    var i, j :| 0 <= i < j < |data.cases| && data.cases[i] == parent && data.cases[j] == id;
    SameIndex(data, j, k);
    forall m | 0 <= m < |todo| ensures todo[m] != parent {
      assert todo[m] == data.cases[k + m];
      SameIndex(data, i, k + m);
    }
  }

  // ---------- rows that stay the newest ----------

  ghost predicate HasRow(d: Disk, id: string, outcome: Outcome) {
    exists n: nat :: RowIs(d, BatchCase(id), n, outcome)
  }

  /** A good row of the case is published, or one that a reviewed selection may replace by a good one. */
  ghost predicate Settled(d: Disk, id: string) {
    HasRow(d, id, Answered) || HasRow(d, id, Replaceable)
  }

  /** Only retryable rows are followed by later attempts. */
  lemma FinalRowIsNewest(s: State, c: CaseName, n: nat, outcome: Outcome)
    requires Invariant(s) && RowIs(s.disk, c, n, outcome) && !outcome.Retryable?
    ensures IsLatest(s.disk, c, n) && n >= 1
  {
    hide Invariant;
    PublishedAttempt(s, c, n);
    forall p | p in s.disk.paths && p.Published? && p.caseId == c ensures p.attempt <= n {
      PublishedAttempt(s, c, p.attempt);
      if p.attempt > n { EarlierRows(s, c, p.attempt, n); }
    }
  }

  lemma SelectableMeans(s: State, id: string)
    requires Invariant(s)
    ensures Selectable(s.disk, id) <==> HasRow(s.disk, id, Replaceable)
  {
    hide Invariant, Readable;
    if n: nat :| RowIs(s.disk, BatchCase(id), n, Replaceable) {
      FinalRowIsNewest(s, BatchCase(id), n, Replaceable);
      assert Published(BatchCase(id), n) in s.disk.paths;
    }
  }

  lemma RowKept(s: State, l: Label, c: CaseName, n: nat, outcome: Outcome)
    requires Invariant(s) && RowIs(s.disk, c, n, outcome)
    ensures RowIs(Step(s, l).disk, c, n, outcome)
  {
    hide Invariant, Step;
    PathsKept(s, l, Published(c, n));
  }

  lemma HasRowKept(s: State, l: Label, id: string, outcome: Outcome)
    requires Invariant(s) && HasRow(s.disk, id, outcome)
    ensures HasRow(Step(s, l).disk, id, outcome)
  {
    hide Invariant, Step, RowIs;
    var n: nat :| RowIs(s.disk, BatchCase(id), n, outcome);
    RowKept(s, l, BatchCase(id), n, outcome);
  }

  // ---------- what every collection keeps ----------

  /** A collection works through the dataset in order, holds a case good only on the strength of a row, and sends
      a follow-up exactly when it does not miss the parent. */
  ghost predicate CollectOk(d: Disk, data: Dataset, p: Process) {
    p.kind.Collect? ==>
      && p.kind.data == data && Rest(p.todo, data.cases) && !p.phase.Preparing?
      && (forall x :: x in p.good ==> Settled(d, x))
      && (!p.phase.Stopped? && p.kind.selected.Some? ==> HasRow(d, p.kind.selected.value, Replaceable))
      && (Working(p.phase) ==>
            && p.todo != [] && p.phase.caseId == BatchCase(p.todo[0])
            && (MissesParent(p, p.todo[0]) <==> p.phase.Publishing? && !p.phase.row.dispatched))
  }

  ghost predicate ParentSettled(d: Disk, data: Dataset, id: string) {
    id in data.cases && (id in data.parents ==> Settled(d, data.parents[id]))
  }

  ghost predicate CollectionsOk(s: State, data: Dataset) {
    && (forall pid :: 0 <= pid < |s.procs| ==> CollectOk(s.disk, data, s.procs[pid]))
    && (forall pid: nat, c, a :: pid < |s.procs| && s.procs[pid].kind.Collect? && Owns(s.disk, pid, c, a) ==>
          c.BatchCase? && ParentSettled(s.disk, data, c.id))
  }

  lemma CollectKept(s: State, l: Label, data: Dataset, p: Process)
    requires Invariant(s) && CollectOk(s.disk, data, p)
    ensures CollectOk(Step(s, l).disk, data, p)
  {
    hide Invariant, Step, HasRow, Rest, MissesParent;
    if p.kind.Collect? {
      forall x | x in p.good ensures Settled(Step(s, l).disk, x) { SettledKept(s, l, x); }
      if !p.phase.Stopped? && p.kind.selected.Some? { HasRowKept(s, l, p.kind.selected.value, Replaceable); }
    }
  }

  lemma SettledKept(s: State, l: Label, id: string)
    requires Invariant(s) && Settled(s.disk, id)
    ensures Settled(Step(s, l).disk, id)
  {
    hide Invariant, Step, HasRow;
    if HasRow(s.disk, id, Answered) { HasRowKept(s, l, id, Answered); } else { HasRowKept(s, l, id, Replaceable); }
  }

  lemma DecideCollectOk(d: Disk, data: Dataset, p: Process, e: Env)
    requires p.phase.Deciding? && CollectOk(d, data, p)
    ensures CollectOk(d, data, Decide(d, p, e))
  {
    hide Readable, HasRow, FirstCanaryPassed;
    if p.kind.Collect? && p.todo != [] {
      var c, q := BatchCase(p.todo[0]), Decide(d, p, e);
      assert NameOf(p.kind, p.todo[0]) == c && p.kind == q.kind;
      forall x | x in q.good ensures Settled(d, x) {
        if x !in p.good { DecideGood(d, p, e); }
      }
    }
  }

  lemma DecideGood(d: Disk, p: Process, e: Env)
    requires p.phase.Deciding? && p.kind.Collect? && p.todo != []
    requires p.kind.selected.Some? ==> HasRow(d, p.kind.selected.value, Replaceable)
    ensures forall x :: x in Decide(d, p, e).good && x !in p.good ==> x == p.todo[0] && Settled(d, x)
  {
    hide IsLatest;
    if e.latest > 0 && RowIs(d, BatchCase(p.todo[0]), e.latest, Answered) { assert HasRow(d, p.todo[0], Answered); }
  }

  lemma OwnCollectStep(s: State, pid: nat, e: Env, data: Dataset)
    requires Invariant(s) && pid < |s.procs| && CollectOk(s.disk, data, s.procs[pid])
    ensures var (d, p, out) := Advance(s.disk, pid, s.procs[pid], e); CollectOk(d, data, p)
  {
    var p := s.procs[pid];
    var (d', p', out) := Advance(s.disk, pid, p, e);
    assert Step(s, Tick(pid, e)).disk == d';
    CollectKept(s, Tick(pid, e), data, p);
    hide Invariant, Step, HasRow, Settled, Decide, WriterStep;
    match p.phase
    case Deciding => DecideCollectOk(s.disk, data, p, e);
    case Publishing(c, a, row, w) => PublishingCollectOk(s, pid, e, data);
    case _ =>
  }

  lemma PublishingCollectOk(s: State, pid: nat, e: Env, data: Dataset)
    requires Invariant(s) && pid < |s.procs| && s.procs[pid].phase.Publishing?
    requires CollectOk(Advance(s.disk, pid, s.procs[pid], e).0, data, s.procs[pid])
    ensures var (d, p, out) := Advance(s.disk, pid, s.procs[pid], e); CollectOk(d, data, p)
  {
    hide Invariant, HasRow, CollectOk, WithRow;
    var p := s.procs[pid];
    var d', w := Advance(s.disk, pid, p, e).0, p.phase.writer;
    var r := WriterStep(s.disk, pid, w, e).1;
    assert r.Finished? && r.won ==> w.Cleaning? && w.won;
    hide WriterStep;
    if p.kind.Collect? {
      WorkingTodo(d', data, p);
      if r.Continue? { WriterChanged(d', data, p, r.writer); }
      else if r.won {
        RowOfOwnCase(s, pid, e);
        NextCollectOk(d', data, p);
      } else { StoppedCollectOk(d', data, p); }
    } else { OthersAreOk(d', data, Advance(s.disk, pid, p, e).1); }
  }

  lemma WorkingTodo(d: Disk, data: Dataset, p: Process)
    requires CollectOk(d, data, p) && p.kind.Collect? && Working(p.phase)
    ensures p.todo != [] && p.phase.caseId == BatchCase(p.todo[0])
  {
  }

  lemma WriterChanged(d: Disk, data: Dataset, p: Process, w: Writer)
    requires CollectOk(d, data, p) && p.phase.Publishing?
    ensures CollectOk(d, data, p.(phase := p.phase.(writer := w)))
  {
    hide Settled, HasRow, Rest;
  }

  lemma NextCollectOk(d: Disk, data: Dataset, p: Process)
    requires CollectOk(d, data, p) && p.kind.Collect? && p.phase.Publishing? && p.todo != []
    requires HasRow(d, p.todo[0], p.phase.row.outcome)
    ensures CollectOk(d, data, p.(todo := p.todo[1..], good := WithRow(p.good, p.todo[0], p.phase.row), phase := Deciding))
  {
    hide HasRow;
  }

  lemma StoppedCollectOk(d: Disk, data: Dataset, p: Process)
    requires CollectOk(d, data, p)
    ensures CollectOk(d, data, p.(phase := Stopped))
  {
    hide Settled, HasRow, Rest;
  }

  lemma OthersAreOk(d: Disk, data: Dataset, p: Process)
    ensures !p.kind.Collect? ==> CollectOk(d, data, p)
  {
  }

  lemma RowOfOwnCase(s: State, pid: nat, e: Env)
    requires Invariant(s) && pid < |s.procs| && s.procs[pid].phase.Publishing? && s.procs[pid].phase.caseId.BatchCase?
    requires s.procs[pid].phase.writer.Cleaning? && s.procs[pid].phase.writer.won
    ensures var phase := s.procs[pid].phase;
            HasRow(Advance(s.disk, pid, s.procs[pid], e).0, phase.caseId.id, phase.row.outcome)
  {
    hide Invariant, Advance;
    OwnRow(s, pid, e);
  }

  lemma NewReservation(s: State, pid: nat, e: Env, data: Dataset, c: CaseName, a: nat)
    requires Invariant(s) && pid < |s.procs| && s.procs[pid].kind.Collect? && CollectOk(s.disk, data, s.procs[pid])
    requires Reserved(c, a) !in s.disk.paths && Reserved(c, a) in Advance(s.disk, pid, s.procs[pid], e).0.paths
    ensures c.BatchCase? && ParentSettled(s.disk, data, c.id)
  {
    var p := s.procs[pid];
    AdvancePublishes(s.disk, pid, p, e);
    assert ProcessOk(s.disk, s.sent, pid, p);
    assert p.phase.Reserving? && p.phase.caseId == c;
    assert p.todo[0] == data.cases[|data.cases| - |p.todo|];
    hide Advance, Settled;
  }

  lemma CollectionsTick(s: State, pid: nat, e: Env, data: Dataset)
    requires Invariant(s) && CollectionsOk(s, data) && pid < |s.procs|
    ensures CollectionsOk(Step(s, Tick(pid, e)), data)
  {
    var p, s' := s.procs[pid], Step(s, Tick(pid, e));
    var (d', p', out) := Advance(s.disk, pid, p, e);
    assert s'.procs == s.procs[pid := p'] && s'.disk == d';
    StepIsOwn(s, pid, e);
    assert p'.kind == p.kind && Grows(s.disk, d', pid);
    OwnCollectStep(s, pid, e, data);
    hide Advance, Step, OwnStep, CollectOk, ParentSettled;
    forall q | 0 <= q < |s'.procs| ensures CollectOk(d', data, s'.procs[q]) {
      if q != pid { CollectKept(s, Tick(pid, e), data, s.procs[q]); }
    }
    forall q: nat, c, a | q < |s'.procs| && s'.procs[q].kind.Collect? && Owns(d', q, c, a)
      ensures c.BatchCase? && ParentSettled(d', data, c.id)
    {
      if Reserved(c, a) in s.disk.paths {
        assert PathOk(s.disk, s.sent, Reserved(c, a));
        hide Invariant;
        ReadableKept(s.disk, d', pid, Reserved(c, a));
        assert Owns(s.disk, q, c, a);
      } else {
        assert d'.files[d'.paths[Reserved(c, a)]].author == pid;
        hide Invariant;
        NewReservation(s, pid, e, data, c, a);
      }
      ParentSettledKept(s, Tick(pid, e), data, c.id);
    }
  }

  lemma ParentSettledKept(s: State, l: Label, data: Dataset, id: string)
    requires Invariant(s) && ParentSettled(s.disk, data, id)
    ensures ParentSettled(Step(s, l).disk, data, id)
  {
    hide Invariant, Step, Settled;
    if id in data.parents { SettledKept(s, l, data.parents[id]); }
  }

  lemma CollectionsStep(s: State, l: Label, data: Dataset)
    requires Invariant(s) && CollectionsOk(s, data) && (l.Spawn? && l.kind.Collect? ==> l.kind.data == data)
    ensures CollectionsOk(Step(s, l), data)
  {
    if l.Tick? && l.pid < |s.procs| {
      CollectionsTick(s, l.pid, l.env, data);
    } else {
      var s' := Step(s, l);
      assert s'.disk == s.disk;
      if l.Spawn? { SpawnOk(s, l.kind, data); }
      SentByKnown(s);
      forall pid: nat, c, a | pid < |s'.procs| && s'.procs[pid].kind.Collect? && Owns(s'.disk, pid, c, a)
        ensures c.BatchCase? && ParentSettled(s.disk, data, c.id)
      {
        OwnerKnown(s, pid, c, a);
      }
      hide Invariant, Settled, HasRow;
    }
  }

  lemma OwnerKnown(s: State, pid: nat, c: CaseName, a: nat)
    requires Invariant(s) && Owns(s.disk, pid, c, a)
    ensures pid < |s.procs|
  {
  }

  lemma SpawnOk(s: State, kind: Kind, data: Dataset)
    requires Invariant(s) && (kind.Collect? ==> kind.data == data)
    ensures CollectOk(s.disk, data, Step(s, Spawn(kind)).procs[|s.procs|])
  {
    if kind.Collect? && kind.selected.Some? { SelectableMeans(s, kind.selected.value); }
    hide Invariant, Selectable, HasRow;
  }

  ghost predicate Sound(s: State, data: Dataset) {
    Invariant(s) && CollectionsOk(s, data)
  }

  lemma OverPrefix(g: seq<Label>, data: Dataset)
    requires Over(g, data) && g != []
    ensures Over(g[..|g| - 1], data)
    ensures g[|g| - 1].Spawn? && g[|g| - 1].kind.Collect? ==> g[|g| - 1].kind.data == data
  {
  }

  lemma {:induction false} SoundAlways(s: State, g: seq<Label>, data: Dataset)
    requires Sound(s, data) && Over(g, data)
    ensures Sound(Run(s, g), data)
    decreases |g|
  {
    hide Step, Invariant, CollectionsOk, Over;
    if g != [] {
      var init, l := g[..|g| - 1], g[|g| - 1];
      OverPrefix(g, data);
      SoundAlways(s, init, data);
      StepKeepsInvariant(Run(s, init), l);
      CollectionsStep(Run(s, init), l, data);
    }
  }

  lemma SoundFromStart(h: seq<Label>, data: Dataset)
    requires Over(h, data)
    ensures Sound(Run(START, h), data)
  {
    SoundAlways(START, h, data);
  }

  // ---------- when a row without a dispatch can still come ----------

  /** The cases a collection takes up after the one it is working on. */
  function Ahead(p: Process): seq<string> {
    if Working(p.phase) && p.todo != [] then p.todo[1..] else p.todo
  }

  /** The good cases as they will be then; a case still without its row does not count. */
  function GoodAfter(p: Process): set<string> {
    if !Working(p.phase) || p.todo == [] then p.good
    else if p.phase.Publishing? then WithRow(p.good, p.todo[0], p.phase.row)
    else p.good - {p.todo[0]}
  }

  /** The collection can come to a follow-up without a good row of its parent: it has passed the parent without one,
      or the parent is ahead and neither published as good nor selected. */
  ghost predicate MayMiss(d: Disk, p: Process, parent: string)
    requires p.kind.Collect?
  {
    if parent in Ahead(p) then p.kind.selected != Some(parent) && !HasRow(d, parent, Answered)
    else parent !in GoodAfter(p)
  }

  predicate UnsentRetry(phase: Phase, c: CaseName, a: nat) {
    phase.Publishing? && phase.caseId == c && phase.attempt == a && !phase.row.dispatched && phase.row.outcome.Retryable?
  }

  /** A live collection that may come to the follow-up `c` without a good row of its parent, or that has come to it
      and is about to publish a retryable row; `a` is the attempt of that row. */
  ghost predicate Stale(d: Disk, data: Dataset, p: Process, c: CaseName, a: nat) {
    && p.kind.Collect? && Viable(d, p.phase) && c.id in data.parents
    && (UnsentRetry(p.phase, c, a)
        || (c.id in Ahead(p) && (a > 1 ==> p.kind.resumeQuota) && MayMiss(d, p, data.parents[c.id])))
  }

  lemma StaleShrinks(s: State, l: Label, data: Dataset, p: Process, c: CaseName, a: nat)
    requires Invariant(s) && Stale(Step(s, l).disk, data, p, c, a)
    ensures Stale(s.disk, data, p, c, a)
  {
    hide Invariant, Step, HasRow;
    ViableShrinks(s, l, p.phase);
    var parent := data.parents[c.id];
    if HasRow(s.disk, parent, Answered) { HasRowKept(s, l, parent, Answered); }
  }

  lemma ViableShrinks(s: State, l: Label, phase: Phase)
    requires Invariant(s) && Viable(Step(s, l).disk, phase)
    ensures Viable(s.disk, phase)
  {
    hide Step, Invariant;
    if Working(phase) {
      var reserved, published := Reserved(phase.caseId, phase.attempt), Published(phase.caseId, phase.attempt);
      if reserved in s.disk.paths { PathsKept(s, l, reserved); }
      if published in s.disk.paths { PathsKept(s, l, published); }
    }
  }

  /** A step of a working process opens no way that was closed. */
  lemma ViableBefore(d: Disk, pid: nat, p: Process, e: Env)
    requires Working(p.phase) && p.kind.Collect?
    requires WriterNamed(p.phase)
    requires var (d', p', out) := Advance(d, pid, p, e); Viable(d', p'.phase)
    ensures Viable(d, p.phase)
  {
  }

  predicate WriterNamed(phase: Phase) {
    && (phase.Reserving? ==> phase.writer.path == Reserved(phase.caseId, phase.attempt))
    && (phase.Publishing? ==> phase.writer.path == Published(phase.caseId, phase.attempt))
  }

  lemma WritersAreNamed(s: State, pid: nat)
    requires Invariant(s) && pid < |s.procs|
    ensures WriterNamed(s.procs[pid].phase)
  {
    assert ProcessOk(s.disk, s.sent, pid, s.procs[pid]);
  }

  lemma WorkingStale(s: State, pid: nat, e: Env, data: Dataset, c: CaseName, a: nat)
    requires Invariant(s) && pid < |s.procs| && Working(s.procs[pid].phase) && CollectOk(s.disk, data, s.procs[pid])
    requires c.id in data.parents && HasRow(s.disk, data.parents[c.id], Answered)
    requires var (d', p', out) := Advance(s.disk, pid, s.procs[pid], e); Stale(d', data, p', c, a)
    ensures Stale(s.disk, data, s.procs[pid], c, a)
  {
    var p := s.procs[pid];
    var (d', p', out) := Advance(s.disk, pid, p, e);
    StepIsOwn(s, pid, e);
    assert p'.kind == p.kind;
    WritersAreNamed(s, pid);
    ViableBefore(s.disk, pid, p, e);
    assert Step(s, Tick(pid, e)).disk == d';
    HasRowKept(s, Tick(pid, e), data.parents[c.id], Answered);
    hide Invariant, HasRow, WriterStep, Viable, Decide, Grows, OwnStep, Step;
    AheadStays(s.disk, pid, p, e);
  }

  lemma AheadStays(d: Disk, pid: nat, p: Process, e: Env)
    requires Working(p.phase) && p.todo != [] && p.kind.Collect?
    ensures var (d', p', out) := Advance(d, pid, p, e);
            p'.phase.Stopped? || (Ahead(p') == Ahead(p) && GoodAfter(p) <= GoodAfter(p'))
    ensures var (d', p', out) := Advance(d, pid, p, e);
            forall c, a :: UnsentRetry(p'.phase, c, a) ==> UnsentRetry(p.phase, c, a)
  {
    hide WriterStep;
  }

  /** The four things a collection can do with the next case. */
  lemma DecideShape(d: Disk, p: Process, e: Env)
    requires p.phase.Deciding? && p.kind.Collect? && p.todo != []
    ensures var p', y := Decide(d, p, e), p.todo[0];
            || p' == p || p'.phase.Stopped?
            || (p' == p.(todo := p.todo[1..], good := p'.good) && p'.good - {y} == p.good - {y})
            || (exists b :: MissesParent(p, y) && (b > 1 ==> p.kind.resumeQuota) && p' == p.(phase := Publish(UnsentRow(BatchCase(y), b, e))))
            || (exists b :: p' == p.(phase := Reserve(BatchCase(y), b)))
  {
    hide Readable, IsLatest, FirstCanaryPassed, UnsentRow, Reserve, Publish;
    assert NameOf(p.kind, p.todo[0]) == BatchCase(p.todo[0]);
  }

  lemma PassedStale(d: Disk, data: Dataset, p: Process, p': Process, c: CaseName, a: nat)
    requires p.phase.Deciding? && p.todo != [] && p' == p.(todo := p.todo[1..], good := p'.good)
    requires p'.good - {p.todo[0]} == p.good - {p.todo[0]}
    requires Stale(d, data, p', c, a) && HasRow(d, data.parents[c.id], Answered)
    requires p.todo[0] == data.parents[c.id] ==> p.todo[0] in p'.good
    ensures Stale(d, data, p, c, a)
  {
    hide HasRow;
    var parent := data.parents[c.id];
    assert parent !in p'.todo && parent !in p'.good && parent != p.todo[0];
    assert parent !in p'.good - {p.todo[0]};
  }

  lemma TakenUpStale(d: Disk, data: Dataset, p: Process, phase: Phase, c: CaseName, a: nat)
    requires p.phase.Deciding? && p.todo != [] && Working(phase) && Stale(d, data, p.(phase := phase), c, a) && c.BatchCase?
    requires HasRow(d, data.parents[c.id], Answered) && p.todo[0] != data.parents[c.id]
    requires phase.Publishing? ==> !phase.row.outcome.Answered?
    requires UnsentRetry(phase, c, a) ==>
               c.id == p.todo[0] && MissesParent(p, c.id) && p.kind.data == data && (a > 1 ==> p.kind.resumeQuota) && data.parents[c.id] !in p.todo
    ensures Stale(d, data, p, c, a)
  {
    hide HasRow;
  }

  lemma StaleIsLive(d: Disk, data: Dataset, p: Process, c: CaseName, a: nat)
    requires Stale(d, data, p, c, a)
    ensures p.kind.Collect? && !p.phase.Stopped? && c.id in data.parents
  {
  }

  lemma DecidingStale(s: State, p: Process, e: Env, data: Dataset, c: CaseName, a: nat)
    requires Invariant(s) && Loadable(data) && p.phase.Deciding? && p.kind.Collect? && CollectOk(s.disk, data, p) && c.BatchCase?
    requires c.id in data.parents && HasRow(s.disk, data.parents[c.id], Answered)
    requires Stale(s.disk, data, Decide(s.disk, p, e), c, a)
    ensures Stale(s.disk, data, p, c, a)
  {
    hide Invariant, HasRow, Loadable, Decide, Rest, Stale, MissesParent, Settled;
    var p', parent := Decide(s.disk, p, e), data.parents[c.id];
    StaleIsLive(s.disk, data, p', c, a);
    if p.todo == [] {
      NothingLeft(s.disk, p, e);
    } else if p' != p {
      DecideShape(s.disk, p, e);
      if p.todo[0] == parent { AnsweredIsKept(s, p, e); }
      if p'.phase.Deciding? {
        PassedStale(s.disk, data, p, p', c, a);
      } else {
        if p.todo[0] == c.id { ParentIsBehind(data, p.todo); }
        TakenUpStale(s.disk, data, p, p'.phase, c, a);
      }
    }
  }

  lemma NothingLeft(d: Disk, p: Process, e: Env)
    requires p.todo == []
    ensures Decide(d, p, e).phase.Stopped?
  {
  }

  /** A case with a good row is never worked on again: a collection passes it and holds it good. */
  lemma AnsweredIsKept(s: State, p: Process, e: Env)
    requires Invariant(s) && p.phase.Deciding? && p.kind.Collect? && p.todo != [] && HasRow(s.disk, p.todo[0], Answered)
    ensures var p' := Decide(s.disk, p, e);
            p' == p || p'.phase.Stopped? || (p'.phase.Deciding? && p'.todo == p.todo[1..] && p.todo[0] in p'.good)
  {
    hide Invariant;
    var id := p.todo[0];
    assert NameOf(p.kind, id) == BatchCase(id);
    var n: nat :| RowIs(s.disk, BatchCase(id), n, Answered);
    FinalRowIsNewest(s, BatchCase(id), n, Answered);
    assert Published(BatchCase(id), n) in s.disk.paths;
    if IsLatest(s.disk, BatchCase(id), e.latest) { assert e.latest == n; }
  }

  // ---------- nothing is sent again ----------

  /** The parent has its good row, no row of the attempt may be retried, and no collection is stale. */
  ghost predicate Closed(s: State, data: Dataset, c: CaseName, a: nat) {
    && Gone(s, c, a) && !RowIs(s.disk, c, a, Retryable)
    && (c.id in data.parents ==> HasRow(s.disk, data.parents[c.id], Answered))
    && (forall pid :: 0 <= pid < |s.procs| ==> !Stale(s.disk, data, s.procs[pid], c, a))
  }

  /** A retryable row of a crashed attempt comes from a stale collection. */
  lemma NewRetryableRow(s: State, pid: nat, e: Env, data: Dataset, c: CaseName, a: nat)
    requires Invariant(s) && pid < |s.procs| && CollectOk(s.disk, data, s.procs[pid]) && Published(c, a) !in s.disk.paths
    requires var d' := Advance(s.disk, pid, s.procs[pid], e).0; RowIs(d', c, a, Retryable) && UndispatchedRow(d', c, a)
    ensures Stale(s.disk, data, s.procs[pid], c, a)
  {
    var p, d := s.procs[pid], s.disk;
    AdvancePublishes(d, pid, p, e);
    assert ProcessOk(d, s.sent, pid, p);
    forall q | q in d.paths ensures Readable(d, q) { assert PathOk(d, s.sent, q); }
    var w, row := p.phase.writer, p.phase.row;
    WriterGrows(d, pid, w, Published(c, a), Observation(row), e);
    assert w.Linking? && WriterStep(d, pid, w, e).0 == Advance(d, pid, p, e).0;
    hide WriterStep, Grows, Invariant, WriterOk, AttemptOk, Decide;
  }

  lemma AdvanceShape(d: Disk, pid: nat, p: Process, e: Env)
    ensures var (d', p', out) := Advance(d, pid, p, e);
            && (p.phase.Stopped? ==> p'.phase.Stopped?)
            && (p.phase.Deciding? ==> d' == d && p' == Decide(d, p, e))
  {
    hide WriterStep, Decide, Prepare;
  }

  lemma OwnStale(s: State, pid: nat, e: Env, data: Dataset, c: CaseName, a: nat)
    requires Sound(s, data) && Loadable(data) && Closed(s, data, c, a) && pid < |s.procs| && c.BatchCase?
    ensures var (d', p', out) := Advance(s.disk, pid, s.procs[pid], e); !Stale(d', data, p', c, a)
  {
    hide Advance, Decide, Invariant, Stale, HasRow, Loadable, Rest, Settled, Gone, Grows, ProcessOk, RowIs;
    var p := s.procs[pid];
    var (d', p', out) := Advance(s.disk, pid, p, e);
    if Stale(d', data, p', c, a) {
      StepIsOwn(s, pid, e);
      CollectionOk(s, pid, data);
      StaleIsLive(d', data, p', c, a);
      AdvanceShape(s.disk, pid, p, e);
      if p.phase.Deciding? { DecidingStale(s, p, e, data, c, a); } else { WorkingStale(s, pid, e, data, c, a); }
    }
  }

  lemma ClosedTick(s: State, pid: nat, e: Env, data: Dataset, c: CaseName, a: nat)
    requires Sound(s, data) && Loadable(data) && Closed(s, data, c, a) && pid < |s.procs| && c.BatchCase?
    ensures Closed(Step(s, Tick(pid, e)), data, c, a)
  {
    var p, l := s.procs[pid], Tick(pid, e);
    var s' := Step(s, l);
    var (d', p', out) := Advance(s.disk, pid, p, e);
    assert s'.procs == s.procs[pid := p'] && s'.disk == d';
    OwnStale(s, pid, e, data, c, a);
    GoneStep(s, l, c, a);
    assert CollectOk(s.disk, data, p);
    assert Published(c, a) in d'.paths ==> UndispatchedRow(d', c, a);
    hide Advance, Step, Invariant, Stale, HasRow, CollectOk, Gone, UndispatchedRow, Loadable;
    if c.id in data.parents { HasRowKept(s, l, data.parents[c.id], Answered); }
    if RowIs(d', c, a, Retryable) {
      if Published(c, a) in s.disk.paths { PathsKept(s, l, Published(c, a)); } else { NewRetryableRow(s, pid, e, data, c, a); }
    }
    forall q | 0 <= q < |s'.procs| ensures !Stale(d', data, s'.procs[q], c, a) {
      if q != pid && Stale(d', data, s.procs[q], c, a) { StaleShrinks(s, l, data, s.procs[q], c, a); }
    }
  }

  lemma ClosedStep(s: State, l: Label, data: Dataset, c: CaseName, a: nat)
    requires Sound(s, data) && Loadable(data) && Closed(s, data, c, a) && c.BatchCase?
    requires l.Spawn? && l.kind.Collect? ==> l.kind.data == data
    ensures Closed(Step(s, l), data, c, a)
  {
    if l.Tick? && l.pid < |s.procs| {
      ClosedTick(s, l.pid, l.env, data, c, a);
    } else {
      var s' := Step(s, l);
      GoneStep(s, l, c, a);
      assert s'.disk == s.disk;
      hide Invariant, HasRow, CollectionsOk, Gone, RowIs, Stale, Loadable, Accepts;
      forall pid | 0 <= pid < |s'.procs| ensures !Stale(s'.disk, data, s'.procs[pid], c, a) {
        if pid == |s.procs| { FreshIsNotStale(s.disk, data, s'.procs[pid], c, a); } else { StoppedIsNotStale(s.disk, data, s'.procs[pid], c, a); }
      }
    }
  }

  lemma StoppedIsNotStale(d: Disk, data: Dataset, p: Process, c: CaseName, a: nat)
    ensures p.phase.Stopped? ==> !Stale(d, data, p, c, a)
  {
  }

  lemma FreshIsNotStale(d: Disk, data: Dataset, p: Process, c: CaseName, a: nat)
    requires Loadable(data) && !Working(p.phase) && (p.kind.Collect? ==> p.todo == data.cases)
    requires c.id in data.parents ==> HasRow(d, data.parents[c.id], Answered)
    ensures !Stale(d, data, p, c, a)
  {
    if c.id in data.parents { ParentIsAhead(data, c.id); }
    hide HasRow, Loadable;
  }

  lemma ParentIsAhead(data: Dataset, id: string)
    requires Loadable(data) && id in data.parents
    ensures data.parents[id] in data.cases
  {
  }

  lemma {:induction false} ClosedThroughout(s: State, g: seq<Label>, data: Dataset, c: CaseName, a: nat)
    requires Sound(s, data) && Loadable(data) && Closed(s, data, c, a) && c.BatchCase? && Over(g, data)
    ensures Closed(Run(s, g), data, c, a)
    decreases |g|
  {
    hide Step, Sound, Closed, Over, Loadable;
    if g != [] {
      var init := g[..|g| - 1];
      OverPrefix(g, data);
      ClosedThroughout(s, init, data, c, a);
      SoundAlways(s, init, data);
      ClosedStep(Run(s, init), g[|g| - 1], data, c, a);
    }
  }

  /** A collection reserved the attempt and is gone, and no row of it is published. */
  ghost predicate CollectionCrash(s: State, c: CaseName, a: nat) {
    Abandoned(s, c, a) && exists pid: nat :: pid < |s.procs| && s.procs[pid].kind.Collect? && Owns(s.disk, pid, c, a)
  }

  /** The case is a follow-up, and its parent can still be missed: the parent has no good row of its own, only a
      selection, or some live collection may come to the case without that row. */
  ghost predicate ParentCanBeMissed(s: State, data: Dataset, c: CaseName, a: nat) {
    c.id in data.parents
    && (!HasRow(s.disk, data.parents[c.id], Answered)
        || exists pid :: 0 <= pid < |s.procs| && Stale(s.disk, data, s.procs[pid], c, a))
  }

  lemma CrashIsClosed(s: State, data: Dataset, c: CaseName, a: nat)
    requires Sound(s, data) && CollectionCrash(s, c, a) && !ParentCanBeMissed(s, data, c, a)
    ensures Closed(s, data, c, a) && c.BatchCase?
  {
    AbandonedIsOrphaned(s, c, a);
    hide Invariant, HasRow, CollectOk, Viable, MayMiss;
  }

  /** After a crash, unless its parent can be missed, the case is never sent again: no process started later sends
      it, and no process at all sends a later attempt. */
  lemma NotSentAgainUnlessMissed(h: seq<Label>, g: seq<Label>, data: Dataset, c: CaseName, a: nat)
    requires Loadable(data) && Over(h, data) && Over(g, data)
    requires CollectionCrash(Run(START, h), c, a) && !ParentCanBeMissed(Run(START, h), data, c, a)
    ensures forall x :: x in Run(START, h + g).sent && x.caseId == c ==> x.attempt <= a && x.pid < |Run(START, h).procs|
  {
    hide Run, Invariant, CollectionsOk, Over, Loadable, ParentCanBeMissed;
    var s, t := Run(START, h), Run(START, h + g);
    SoundFromStart(h, data);
    CrashIsClosed(s, data, c, a);
    ReservedAttempt(s, c, a);
    ClosedThroughout(s, g, data, c, a);
    RunConcat(START, h, g);
    AbandonedIsOrphaned(s, c, a);
    assert (h + g)[..|h|] == h && (h + g)[..|h + g|] == h + g;
    RerunSendsNothingUnpublished(h + g, |h|, |h + g|, c, a);
    InvariantAlways(h + g);
    SentByKnown(t);
    forall x | x in t.sent && x.caseId == c ensures x.attempt <= a && x.pid < |s.procs| {
      if x.attempt > a { LaterAttemptNeedsRow(t, c, a, x); }
    }
  }

  lemma LaterAttemptNeedsRow(s: State, c: CaseName, a: nat, x: Dispatch)
    requires Invariant(s) && x in s.sent && x.caseId == c && x.attempt > a >= 1
    ensures RowIs(s.disk, c, a, Retryable)
  {
    SentByKnown(s);
    hide Invariant;
    ReservedAttempt(s, c, x.attempt);
    EarlierRows(s, c, x.attempt, a);
  }

  // ---------- passing a case ----------

  predicate InWork(phase: Phase, c: CaseName) { Working(phase) && phase.caseId == c }

  /** The process is working on the attempt and nothing is in its way. */
  predicate Underway(s: State, pid: nat, c: CaseName, a: nat) {
    pid < |s.procs| && InWork(s.procs[pid].phase, c) && s.procs[pid].phase.attempt == a && Viable(s.disk, s.procs[pid].phase)
  }

  /** Every attempt of the case that was reserved has its row or a process that can still publish it. */
  ghost predicate Unblocked(s: State, c: CaseName) {
    forall b: nat :: Reserved(c, b) in s.disk.paths && Published(c, b) !in s.disk.paths ==> exists pid: nat :: Underway(s, pid, c, b)
  }

  predicate AllPublished(s: State, c: CaseName) {
    forall p :: p in s.disk.paths && p.Reserved? && p.caseId == c ==> Published(c, p.attempt) in s.disk.paths
  }

  /** Only the newest reservation of a case can lack its row. */
  lemma OneOpen(s: State, c: CaseName, a: nat, b: nat)
    requires Invariant(s) && Reserved(c, a) in s.disk.paths && Published(c, a) !in s.disk.paths && Reserved(c, b) in s.disk.paths
    ensures b <= a
  {
    hide Invariant;
    ReservedAttempt(s, c, a);
    ReservedAttempt(s, c, b);
    if b > a { EarlierRows(s, c, b, a); }
  }

  /** A process that is under way with the case publishes its row; then no attempt of the case is open. */
  lemma CaseCloses(s: State, pid: nat, c: CaseName) returns (g: seq<Label>)
    requires Invariant(s) && pid < |s.procs| && !InWork(s.procs[pid].phase, c) && Unblocked(s, c) && c.BatchCase?
    ensures NoSpawns(g) && AllPublished(Run(s, g), c) && ChangesOnly(s, Run(s, g), c, pid) && Run(s, g).procs[pid] == s.procs[pid]
  {
    hide Run, Invariant, RowIs, Viable, NextCase;
    if AllPublished(s, c) {
      g := [];
      EmptyRun(s);
    } else {
      var p :| p in s.disk.paths && p.Reserved? && p.caseId == c && Published(c, p.attempt) !in s.disk.paths;
      var a := p.attempt;
      assert p == Reserved(c, a);
      var r: nat :| Underway(s, r, c, a);
      g := CaseFinishes(s, r, Other);
      RowReadable(Run(s, g), c, a);
      NowAllPublished(s, Run(s, g), c, a);
    }
  }

  lemma RowReadable(s: State, c: CaseName, a: nat)
    ensures forall outcome :: RowIs(s.disk, c, a, outcome) ==> Published(c, a) in Names(s)
  {
  }

  lemma NowAllPublished(s: State, t: State, c: CaseName, a: nat)
    requires Invariant(s) && Reserved(c, a) in s.disk.paths && Published(c, a) !in s.disk.paths && Published(c, a) in t.disk.paths
    requires Names(s) <= Names(t) <= Names(s) + {Reserved(c, a), Published(c, a)}
    ensures AllPublished(t, c)
  {
    hide Invariant;
    forall q | q in t.disk.paths && q.Reserved? && q.caseId == c ensures Published(c, q.attempt) in t.disk.paths {
      assert q == Reserved(c, q.attempt) && q in Names(s);
      if Published(c, q.attempt) in s.disk.paths {
        assert Published(c, q.attempt) in Names(s);
      } else {
        OneOpen(s, c, a, q.attempt);
        OneOpen(s, c, q.attempt, a);
      }
    }
  }

  /** Only names of the case are added, and only `pid` and processes that work on the case move. */
  ghost predicate ChangesOnly(s: State, t: State, c: CaseName, pid: nat) {
    && |t.procs| == |s.procs|
    && (forall q :: q in t.disk.paths && q !in s.disk.paths ==> q.caseId == c)
    && (forall r :: 0 <= r < |s.procs| && r != pid && !InWork(s.procs[r].phase, c) ==> t.procs[r] == s.procs[r])
  }

  lemma MaxAttempt(paths: set<Path>, c: CaseName) returns (n: nat)
    ensures n > 0 ==> Published(c, n) in paths
    ensures forall p :: p in paths && p.Published? && p.caseId == c ==> p.attempt <= n
    decreases |paths|
  {
    if paths == {} {
      n := 0;
    } else {
      var p :| p in paths;
      n := MaxAttempt(paths - {p}, c);
      if p.Published? && p.caseId == c && p.attempt > n { n := p.attempt; }
    }
  }

  lemma NewestRow(s: State, c: CaseName) returns (n: nat)
    ensures IsLatest(s.disk, c, n)
  {
    n := MaxAttempt(Names(s), c);
    assert forall p :: p in s.disk.paths <==> p in Names(s);
  }

  lemma NewestIsReadable(s: State, c: CaseName, n: nat)
    requires Invariant(s) && IsLatest(s.disk, c, n) && n > 0
    ensures Readable(s.disk, Published(c, n)) && s.disk.files[s.disk.paths[Published(c, n)]].doc.Observation?
    ensures exists outcome :: RowIs(s.disk, c, n, outcome)
  {
    assert PathOk(s.disk, s.sent, Published(c, n));
    assert RowIs(s.disk, c, n, s.disk.files[s.disk.paths[Published(c, n)]].doc.row.outcome);
  }

  lemma OneNewest(d: Disk, c: CaseName, n: nat, m: nat)
    requires IsLatest(d, c, n) && IsLatest(d, c, m)
    ensures n == m
  {
    assert n > 0 ==> Published(c, n) in d.paths;
    assert m > 0 ==> Published(c, m) in d.paths;
  }

  /** The newest row of the next case calls for an attempt: there is none, or it may be retried. */
  predicate CallsFor(d: Disk, p: Process, n: nat)
    requires p.kind.Collect? && p.todo != []
  {
    var c := BatchCase(p.todo[0]);
    p.kind.selected != Some(p.todo[0]) && IsLatest(d, c, n) && (n == 0 || (p.kind.resumeQuota && RowIs(d, c, n, Retryable)))
  }

  /** A case whose newest row calls for no attempt is passed in one step. */
  lemma RowIsPassed(s: State, p: Process, n: nat)
    requires Invariant(s) && p.kind.Collect? && p.phase.Deciding? && p.todo != []
    requires IsLatest(s.disk, BatchCase(p.todo[0]), n) && !CallsFor(s.disk, p, n)
    requires p.kind.selected == Some(p.todo[0]) ==> n > 0
    ensures var y, q := p.todo[0], Decide(s.disk, p, Fine(n, 0, Retryable));
            && q == p.(todo := p.todo[1..], good := q.good) && q.good - {y} == p.good - {y}
            && (y in q.good <==> p.kind.selected == Some(y) || RowIs(s.disk, BatchCase(y), n, Answered))
  {
    assert NameOf(p.kind, p.todo[0]) == BatchCase(p.todo[0]);
    NewestIsReadable(s, BatchCase(p.todo[0]), n);
    hide Invariant, IsLatest;
  }

  /** Otherwise the next attempt is taken up. */
  lemma CaseIsTakenUp(s: State, p: Process, n: nat)
    requires Invariant(s) && p.kind.Collect? && p.phase.Deciding? && p.todo != []
    requires CallsFor(s.disk, p, n) && (MissesParent(p, p.todo[0]) || Reserved(BatchCase(p.todo[0]), n + 1) !in s.disk.paths)
    ensures var c, e := BatchCase(p.todo[0]), Fine(n, 0, Retryable);
            var phase := if MissesParent(p, c.id) then Publish(UnsentRow(c, n + 1, e)) else Reserve(c, n + 1);
            Decide(s.disk, p, e) == p.(phase := phase) && Viable(s.disk, phase)
  {
    var c := BatchCase(p.todo[0]);
    assert NameOf(p.kind, p.todo[0]) == c;
    if n > 0 { NewestIsReadable(s, c, n); }
    assert Published(c, n + 1) !in s.disk.paths;
    hide Invariant, MissesParent;
  }

  /** Where a collection stands after it has passed the case that was next. */
  ghost predicate Passed(s: State, t: State, pid: nat)
    requires pid < |s.procs| && s.procs[pid].kind.Collect? && s.procs[pid].todo != []
  {
    var p, y := s.procs[pid], s.procs[pid].todo[0];
    && ChangesOnly(s, t, BatchCase(y), pid)
    && t.procs[pid] == p.(todo := p.todo[1..], good := t.procs[pid].good, phase := Deciding)
    && t.procs[pid].good - {y} == p.good - {y}
    && (p.kind.selected == Some(y) || HasRow(s.disk, y, Answered) ==> y in t.procs[pid].good)
    && (p.kind.selected != Some(y) && HasRow(s.disk, y, Replaceable) ==> y !in t.procs[pid].good)
  }

  lemma HasRowIsNewest(s: State, id: string, n: nat, final: Outcome)
    requires Invariant(s) && IsLatest(s.disk, BatchCase(id), n) && HasRow(s.disk, id, final) && !final.Retryable?
    ensures n > 0 && RowIs(s.disk, BatchCase(id), n, final)
  {
    hide Invariant, IsLatest;
    var m: nat :| RowIs(s.disk, BatchCase(id), m, final);
    FinalRowIsNewest(s, BatchCase(id), m, final);
    OneNewest(s.disk, BatchCase(id), n, m);
  }

  lemma PassesRow(s: State, pid: nat, n: nat) returns (l: Label)
    requires Invariant(s) && pid < |s.procs| && s.procs[pid].kind.Collect? && s.procs[pid].phase.Deciding?
    requires s.procs[pid].todo != [] && IsLatest(s.disk, BatchCase(s.procs[pid].todo[0]), n) && !CallsFor(s.disk, s.procs[pid], n)
    requires s.procs[pid].kind.selected == Some(s.procs[pid].todo[0]) ==> n > 0
    ensures l.Tick? && Passed(s, Step(s, l), pid) && Step(s, l).disk == s.disk
    ensures var y := s.procs[pid].todo[0];
            y in Step(s, l).procs[pid].good <==> s.procs[pid].kind.selected == Some(y) || RowIs(s.disk, BatchCase(y), n, Answered)
  {
    hide Step, Decide, Invariant, IsLatest, HasRow, CallsFor, RowIs;
    var p, y := s.procs[pid], s.procs[pid].todo[0];
    l := Tick(pid, Fine(n, 0, Retryable));
    TickDeciding(s, pid, l.env);
    RowIsPassed(s, p, n);
    if HasRow(s.disk, y, Answered) { HasRowIsNewest(s, y, n, Answered); }
    if HasRow(s.disk, y, Replaceable) {
      HasRowIsNewest(s, y, n, Replaceable);
      OneOutcome(s.disk, BatchCase(y), n);
    }
  }

  lemma OneOutcome(d: Disk, c: CaseName, n: nat)
    ensures RowIs(d, c, n, Replaceable) ==> !RowIs(d, c, n, Answered)
  {
  }

  /** A collection passes a case no attempt of which is open. */
  lemma PassesClosedCase(s: State, pid: nat, outcome: Outcome, data: Dataset) returns (g: seq<Label>)
    requires Sound(s, data) && pid < |s.procs| && s.procs[pid].kind.Collect? && s.procs[pid].phase.Deciding?
    requires s.procs[pid].todo != [] && AllPublished(s, BatchCase(s.procs[pid].todo[0]))
    ensures NoSpawns(g) && Passed(s, Run(s, g), pid) && AllPublished(Run(s, g), BatchCase(s.procs[pid].todo[0]))
  {
    var p := s.procs[pid];
    var y, c := p.todo[0], BatchCase(p.todo[0]);
    var n := NewestRow(s, c);
    assert CollectOk(s.disk, data, p);
    hide Run, Step, Decide, Invariant, CollectionsOk, CollectOk, IsLatest, HasRow, Passed;
    if CallsFor(s.disk, p, n) {
      g := TakesUpCase(s, pid, n, outcome);
    } else {
      if p.kind.selected == Some(y) { HasRowIsNewest(s, y, n, Replaceable); }
      var l := PassesRow(s, pid, n);
      g := [l];
      RunFirst(s, l, []);
      EmptyRun(Step(s, l));
      SameNames(s, Step(s, l), c);
    }
  }

  lemma SameNames(s: State, t: State, c: CaseName)
    requires Names(s) == Names(t) && AllPublished(s, c)
    ensures AllPublished(t, c)
  {
    forall p | p in t.disk.paths && p.Reserved? && p.caseId == c ensures Published(c, p.attempt) in t.disk.paths {
      assert p in Names(s);
      assert Published(c, p.attempt) in Names(s);
    }
  }

  lemma TakesUpCase(s: State, pid: nat, n: nat, outcome: Outcome) returns (g: seq<Label>)
    requires Invariant(s) && pid < |s.procs| && s.procs[pid].kind.Collect? && s.procs[pid].phase.Deciding?
    requires s.procs[pid].todo != [] && AllPublished(s, BatchCase(s.procs[pid].todo[0])) && CallsFor(s.disk, s.procs[pid], n)
    ensures OwnTicks(g, pid) && NoSpawns(g)
    ensures Passed(s, Run(s, g), pid) && AllPublished(Run(s, g), BatchCase(s.procs[pid].todo[0]))
    ensures var p, y, t := s.procs[pid], s.procs[pid].todo[0], Run(s, g);
            RowIs(t.disk, BatchCase(y), n + 1, if MissesParent(p, y) then Retryable else outcome)
            && Stands(t.disk, Row(BatchCase(y), n + 1, !MissesParent(p, y), if MissesParent(p, y) then Retryable else outcome,
                                  !MissesParent(p, y) && outcome.Answered?))
            && t.sent == s.sent + (if MissesParent(p, y) then [] else [Dispatch(BatchCase(y), n + 1, pid)])
            && (forall q :: q in t.disk.paths && q !in s.disk.paths ==> q.attempt == n + 1)
            && (y in t.procs[pid].good <==> !MissesParent(p, y) && outcome.Answered?)
  {
    hide Run, Decide, Invariant, IsLatest, HasRow, Viable, MissesParent, RowIs, Stands;
    var p, y, c := s.procs[pid], s.procs[pid].todo[0], BatchCase(s.procs[pid].todo[0]);
    var l := Tick(pid, Fine(n, 0, Retryable));
    var t := Step(s, l);
    NextIsFree(s, c, n);
    CaseIsTakenUp(s, p, n);
    StepKeepsInvariant(s, l);
    assert t.procs == s.procs[pid := Decide(s.disk, p, l.env)] && t.disk == s.disk;
    var g2 := CaseFinishes(t, pid, outcome);
    g := [l] + g2;
    RunFirst(s, l, g2);
    var u := Run(s, g);
    hide Step;
    NoFinalRow(s, p, n);
    forall q | q in u.disk.paths && q.Reserved? && q.caseId == c ensures Published(c, q.attempt) in u.disk.paths {
      assert q in Names(u);
      if q in Names(s) { assert Published(c, q.attempt) in Names(s); }
      assert Published(c, q.attempt) in Names(u);
    }
    forall q | q in u.disk.paths && q !in s.disk.paths ensures q.caseId == c && q.attempt == n + 1 { assert q in Names(u); }
  }

  lemma NextIsFree(s: State, c: CaseName, n: nat)
    requires AllPublished(s, c) && IsLatest(s.disk, c, n)
    ensures Reserved(c, n + 1) !in s.disk.paths
  {
    assert Published(c, n + 1) !in s.disk.paths;
  }

  lemma NoFinalRow(s: State, p: Process, n: nat)
    requires Invariant(s) && p.kind.Collect? && p.todo != [] && CallsFor(s.disk, p, n)
    ensures p.kind.selected != Some(p.todo[0]) && !HasRow(s.disk, p.todo[0], Answered) && !HasRow(s.disk, p.todo[0], Replaceable)
  {
    hide Invariant, IsLatest, HasRow;
    var y := p.todo[0];
    if HasRow(s.disk, y, Answered) { HasRowIsNewest(s, y, n, Answered); }
    if HasRow(s.disk, y, Replaceable) { HasRowIsNewest(s, y, n, Replaceable); }
  }

  lemma PassesCase(s: State, pid: nat, outcome: Outcome, data: Dataset) returns (g: seq<Label>)
    requires Sound(s, data) && pid < |s.procs| && s.procs[pid].kind.Collect? && s.procs[pid].phase.Deciding?
    requires s.procs[pid].todo != [] && Unblocked(s, BatchCase(s.procs[pid].todo[0]))
    ensures NoSpawns(g) && Passed(s, Run(s, g), pid) && Unblocked(Run(s, g), BatchCase(s.procs[pid].todo[0]))
  {
    hide Run, Step, Invariant, CollectionsOk, Unblocked, AllPublished, HasRow, Over;
    var c := BatchCase(s.procs[pid].todo[0]);
    var g1 := CaseCloses(s, pid, c);
    var t := Run(s, g1);
    OverNoSpawns(g1, data);
    SoundAlways(s, g1, data);
    var g2 := PassesClosedCase(t, pid, outcome, data);
    g := g1 + g2;
    RunConcat(s, g1, g2);
    PublishedIsUnblocked(Run(t, g2), c);
    HasRowStays(s, g1, c.id);
  }

  lemma OverNoSpawns(g: seq<Label>, data: Dataset)
    requires NoSpawns(g)
    ensures Over(g, data)
  {
  }

  lemma PublishedIsUnblocked(s: State, c: CaseName)
    requires AllPublished(s, c)
    ensures Unblocked(s, c)
  {
    forall b: nat | Reserved(c, b) in s.disk.paths ensures Published(c, b) in s.disk.paths {
      var p := Reserved(c, b);
      assert p in s.disk.paths && Published(c, p.attempt) in s.disk.paths;
    }
  }

  lemma {:induction false} HasRowStays(s: State, g: seq<Label>, id: string)
    requires Invariant(s)
    ensures forall o :: HasRow(s.disk, id, o) ==> HasRow(Run(s, g).disk, id, o)
    decreases |g|
  {
    hide Step, Invariant, HasRow;
    if g != [] {
      var init := g[..|g| - 1];
      HasRowStays(s, init, id);
      RunKeepsInvariant(s, init);
      forall o | HasRow(s.disk, id, o) ensures HasRow(Run(s, g).disk, id, o) { HasRowKept(Run(s, init), g[|g| - 1], id, o); }
    }
  }

  // ---------- reaching a case ----------

  lemma UnblockedKept(s: State, t: State, pid: nat, y: CaseName, c: CaseName)
    requires pid < |s.procs| && !InWork(s.procs[pid].phase, c) && ChangesOnly(s, t, y, pid) && Names(s) <= Names(t)
    requires Unblocked(s, c) && c != y
    ensures Unblocked(t, c)
  {
    forall b: nat | Reserved(c, b) in t.disk.paths && Published(c, b) !in t.disk.paths ensures exists r: nat :: Underway(t, r, c, b) {
      assert Published(c, b) !in Names(t) && Reserved(c, b) in s.disk.paths;
      assert Published(c, b) !in s.disk.paths;
      var r: nat :| Underway(s, r, c, b);
      assert t.procs[r] == s.procs[r];
      assert Underway(t, r, c, b);
    }
  }

  /** Where a collection stands after it has passed the next `k` cases. */
  ghost predicate Reached(s: State, t: State, pid: nat, k: nat)
    requires pid < |s.procs| && s.procs[pid].kind.Collect? && k <= |s.procs[pid].todo|
  {
    var p, passed := s.procs[pid], s.procs[pid].todo[..k];
    && |t.procs| == |s.procs|
    && t.procs[pid] == p.(todo := p.todo[k..], good := t.procs[pid].good)
    && (forall x :: x !in passed ==> (x in t.procs[pid].good <==> x in p.good))
    && (forall x :: x in passed && (p.kind.selected == Some(x) || HasRow(s.disk, x, Answered)) ==> x in t.procs[pid].good)
    && (forall x :: x in passed && p.kind.selected != Some(x) && HasRow(s.disk, x, Replaceable) ==> x !in t.procs[pid].good)
    && (forall q :: q in t.disk.paths && q !in s.disk.paths ==> q.caseId.BatchCase? && q.caseId.id in passed)
    && (forall c :: Unblocked(s, c) ==> Unblocked(t, c))
  }

  lemma {:induction false} Reaches(s: State, pid: nat, k: nat, outcome: Outcome, data: Dataset) returns (g: seq<Label>)
    requires Sound(s, data) && Loadable(data) && pid < |s.procs| && s.procs[pid].kind.Collect? && s.procs[pid].phase.Deciding?
    requires k <= |s.procs[pid].todo| && forall i :: 0 <= i < k ==> Unblocked(s, BatchCase(s.procs[pid].todo[i]))
    ensures NoSpawns(g) && Reached(s, Run(s, g), pid, k)
    decreases k
  {
    hide Run, Step, Invariant, CollectionsOk, Unblocked, HasRow, Loadable, Passed, Reached, Over, Settled;
    var p := s.procs[pid];
    assert CollectOk(s.disk, data, p) by { CollectionOk(s, pid, data); }
    RestDistinct(data, p.todo);
    if k == 0 {
      g := [];
      EmptyRun(s);
      ReachedNone(s, pid);
    } else {
      var g1 := PassesCase(s, pid, outcome, data);
      var t := Run(s, g1);
      OverNoSpawns(g1, data);
      SoundAlways(s, g1, data);
      NamesGrow(s, g1);
      PassedMeans(s, t, pid);
      forall c | Unblocked(s, c) ensures Unblocked(t, c) {
        if c != BatchCase(p.todo[0]) { UnblockedKept(s, t, pid, BatchCase(p.todo[0]), c); }
      }
      assert forall i :: 0 <= i < k - 1 ==> t.procs[pid].todo[i] == p.todo[i + 1];
      var g2 := Reaches(t, pid, k - 1, outcome, data);
      g := g1 + g2;
      RunConcat(s, g1, g2);
      forall x, o | HasRow(s.disk, x, o) ensures HasRow(t.disk, x, o) { HasRowStays(s, g1, x); }
      ReachedMore(s, t, Run(t, g2), pid, k);
    }
  }

  lemma CollectionOk(s: State, pid: nat, data: Dataset)
    requires CollectionsOk(s, data) && pid < |s.procs|
    ensures CollectOk(s.disk, data, s.procs[pid])
  {
  }

  lemma PassedMeans(s: State, t: State, pid: nat)
    requires pid < |s.procs| && s.procs[pid].kind.Collect? && s.procs[pid].todo != [] && Passed(s, t, pid) && s.procs[pid].phase.Deciding?
    ensures ChangesOnly(s, t, BatchCase(s.procs[pid].todo[0]), pid) && t.procs[pid].phase.Deciding?
    ensures t.procs[pid].kind == s.procs[pid].kind && t.procs[pid].todo == s.procs[pid].todo[1..]
  {
  }

  lemma ReachedNone(s: State, pid: nat)
    requires pid < |s.procs| && s.procs[pid].kind.Collect?
    ensures Reached(s, s, pid, 0)
  {
    hide HasRow, Unblocked;
  }

  lemma ReachedMore(s: State, t: State, u: State, pid: nat, k: nat)
    requires pid < |s.procs| && s.procs[pid].kind.Collect? && 0 < k <= |s.procs[pid].todo| && s.procs[pid].phase.Deciding?
    requires forall i, j :: 0 <= i < j < |s.procs[pid].todo| ==> s.procs[pid].todo[i] != s.procs[pid].todo[j]
    requires Passed(s, t, pid) && k - 1 <= |t.procs[pid].todo| && Reached(t, u, pid, k - 1)
    requires forall c :: Unblocked(s, c) ==> Unblocked(t, c)
    requires forall x, o :: HasRow(s.disk, x, o) ==> HasRow(t.disk, x, o)
    ensures Reached(s, u, pid, k)
  {
    hide HasRow, Unblocked;
    var p, y, passed, rest := s.procs[pid], s.procs[pid].todo[0], s.procs[pid].todo[..k], t.procs[pid].todo[..k - 1];
    assert passed == [y] + rest;
    assert p.todo[1..][k - 1..] == p.todo[k..];
    forall x | x in rest ensures x != y {}
    forall x ensures x in passed <==> x == y || x in rest {}
    forall x ensures x != y ==> (x in t.procs[pid].good <==> x in p.good) {
      assert x in t.procs[pid].good - {y} <==> x in p.good - {y};
    }
  }


  // ---------- a stale collection publishes a row that can be retried ----------

  /** While no row of a reserved attempt is published, the newest row is that of the attempt before. */
  lemma LatestIsBefore(s: State, c: CaseName, a: nat)
    requires Invariant(s) && Reserved(c, a) in s.disk.paths && Published(c, a) !in s.disk.paths
    ensures a >= 1 && AttemptOk(s.disk, c, a) && IsLatest(s.disk, c, a - 1)
  {
    hide Invariant, PathOk, Run;
    ReservedAttempt(s, c, a);
    if a > 1 { assert Published(c, a - 1) in s.disk.paths; }
    forall p | p in s.disk.paths && p.Published? && p.caseId == c ensures p.attempt <= a - 1 {
      PublishedAttempt(s, c, p.attempt);
      if p.attempt > a { EarlierRows(s, c, p.attempt, a); }
    }
  }

  /** An attempt that was reserved and has no row; nothing stands in the way of the cases before it. */
  ghost predicate Waiting(s: State, data: Dataset, c: CaseName, a: nat) {
    && Sound(s, data) && Loadable(data) && c.BatchCase? && c.id in data.cases
    && Reserved(c, a) in s.disk.paths && Published(c, a) !in s.disk.paths && NothingBefore(s, data, c)
    && c.id in data.parents && Settled(s.disk, data.parents[c.id])
  }

  ghost predicate NothingBefore(s: State, data: Dataset, c: CaseName) {
    forall i, j :: 0 <= i < j < |data.cases| && data.cases[j] == c.id ==> Unblocked(s, BatchCase(data.cases[i]))
  }

  /** What remains of it when a retryable row of the attempt has been published. */
  ghost predicate RowPublished(s: State, t: State, data: Dataset, c: CaseName, a: nat) {
    && |t.procs| == |s.procs| && RowIs(t.disk, c, a, Retryable) && NothingBefore(t, data, c)
    && (forall b: nat :: (Reserved(c, b) in t.disk.paths ==> Reserved(c, b) in s.disk.paths)
                         && (Published(c, b) in t.disk.paths ==> b == a || Published(c, b) in s.disk.paths))
  }

  /** A collection that stands at the follow-up without a good row of its parent publishes that row. */
  lemma MissingRowIsPublished(s: State, pid: nat, data: Dataset, c: CaseName, a: nat) returns (g: seq<Label>)
    requires Waiting(s, data, c, a) && pid < |s.procs| && s.procs[pid].kind.Collect? && s.procs[pid].phase.Deciding?
    requires s.procs[pid].todo != [] && s.procs[pid].todo[0] == c.id && MissesParent(s.procs[pid], c.id)
    requires a > 1 ==> s.procs[pid].kind.resumeQuota
    ensures NoSpawns(g) && RowPublished(s, Run(s, g), data, c, a)
  {
    hide Run, Decide, Invariant, CollectionsOk, IsLatest, HasRow, Viable, Loadable, Unblocked, Settled, Step;
    var p := s.procs[pid];
    LatestIsBefore(s, c, a);
    var n: nat := a - 1;
    CollectionOk(s, pid, data);
    if p.kind.selected == Some(c.id) { HasRowIsNewest(s, c.id, n, Replaceable); }
    assert CallsFor(s.disk, p, n);
    var l := Tick(pid, Fine(n, 0, Retryable));
    CaseIsTakenUp(s, p, n);
    TickDeciding(s, pid, l.env);
    StepKeepsInvariant(s, l);
    var t := Step(s, l);
    hide MissesParent;
    var g2 := PublishingFinishes(t, pid);
    g := [l] + g2;
    RunFirst(s, l, g2);
    OwnNamesOnly(s, Run(s, g), pid, data, c, {Published(c, a)});
  }

  /** A process that touches only its own case leaves the cases before it as they were. */
  lemma OwnNamesOnly(s: State, t: State, pid: nat, data: Dataset, c: CaseName, names: set<Path>)
    requires pid < |s.procs| && (Working(s.procs[pid].phase) ==> s.procs[pid].phase.caseId == c)
    requires |t.procs| == |s.procs| && t.procs == s.procs[pid := t.procs[pid]] && Names(t) == Names(s) + names
    requires Loadable(data) && NothingBefore(s, data, c) && forall q :: q in names ==> q.caseId == c && q.Published?
    ensures NothingBefore(t, data, c)
    ensures forall q :: q in t.disk.paths ==> q in s.disk.paths || q in names
  {
    hide Unblocked;
    forall q | q in t.disk.paths && q !in s.disk.paths ensures q in names { assert q in Names(t); }
    forall i: nat, j: nat | i < j < |data.cases| && data.cases[j] == c.id ensures Unblocked(t, BatchCase(data.cases[i])) {
      assert Unblocked(s, BatchCase(data.cases[i]));
      SameIndex(data, i, j);
      UnblockedKept(s, t, pid, c, BatchCase(data.cases[i]));
    }
  }

  /** Two final rows of a case are the same. */
  lemma FinalRowsAgree(s: State, id: string)
    requires Invariant(s)
    ensures !(HasRow(s.disk, id, Answered) && HasRow(s.disk, id, Replaceable))
  {
    hide Invariant, IsLatest;
    if HasRow(s.disk, id, Answered) && HasRow(s.disk, id, Replaceable) {
      var n := NewestRow(s, BatchCase(id));
      HasRowIsNewest(s, id, n, Answered);
      HasRowIsNewest(s, id, n, Replaceable);
    }
  }

  /** The follow-up lies ahead of the collection, which may come to it without a good row of the parent. */
  ghost predicate Coming(s: State, pid: nat, data: Dataset, c: CaseName, a: nat) {
    && pid < |s.procs| && s.procs[pid].kind.Collect? && s.procs[pid].phase.Deciding? && c.id in s.procs[pid].todo
    && c.id in data.parents && (a > 1 ==> s.procs[pid].kind.resumeQuota) && MayMiss(s.disk, s.procs[pid], data.parents[c.id])
  }

  lemma ComesAndPublishes(s: State, pid: nat, data: Dataset, c: CaseName, a: nat) returns (g: seq<Label>)
    requires Waiting(s, data, c, a) && Coming(s, pid, data, c, a)
    ensures NoSpawns(g) && RowPublished(s, Run(s, g), data, c, a)
  {
    hide Run, Invariant, CollectionsOk, HasRow, Loadable, Unblocked, Reached, Settled, MayMiss, Rest;
    var p, parent := s.procs[pid], data.parents[c.id];
    CollectionOk(s, pid, data);
    var k: nat :| k < |p.todo| && p.todo[k] == c.id;
    CasesAhead(s, data, c, p.todo, k);
    var g1 := Reaches(s, pid, k, Other, data);
    var t := Run(s, g1);
    OverNoSpawns(g1, data);
    SoundAlways(s, g1, data);
    StillWaiting(s, t, g1, pid, data, c, a, k);
    ReachedNames(s, t, pid, k, data, c);
    MissedOnArrival(s, t, pid, data, c, k);
    var g2 := MissingRowIsPublished(t, pid, data, c, a);
    g := g1 + g2;
    RunConcat(s, g1, g2);
  }

  lemma CasesAhead(s: State, data: Dataset, c: CaseName, todo: seq<string>, k: nat)
    requires Loadable(data) && Rest(todo, data.cases) && k < |todo| && todo[k] == c.id && NothingBefore(s, data, c)
    ensures forall i :: 0 <= i < k ==> Unblocked(s, BatchCase(todo[i])) && todo[i] != c.id
  {
    hide Unblocked;
    var off := |data.cases| - |todo|;
    assert data.cases[off + k] == c.id;
    forall i | 0 <= i < k ensures Unblocked(s, BatchCase(todo[i])) && todo[i] != c.id {
      assert todo[i] == data.cases[off + i] && off + i < off + k;
    }
  }

  /** Reaching the case leaves its own names alone. */
  lemma ReachedNames(s: State, t: State, pid: nat, k: nat, data: Dataset, c: CaseName)
    requires pid < |s.procs| && s.procs[pid].kind.Collect? && k <= |s.procs[pid].todo| && Reached(s, t, pid, k)
    requires forall i :: 0 <= i < k ==> s.procs[pid].todo[i] != c.id
    ensures |t.procs| == |s.procs| && (NothingBefore(s, data, c) ==> NothingBefore(t, data, c))
    ensures forall b: nat :: (Reserved(c, b) in t.disk.paths ==> Reserved(c, b) in s.disk.paths)
                             && (Published(c, b) in t.disk.paths ==> Published(c, b) in s.disk.paths)
  {
    hide Unblocked, HasRow;
    var passed := s.procs[pid].todo[..k];
    assert c.id !in passed;
  }

  lemma StillWaiting(s: State, t: State, g: seq<Label>, pid: nat, data: Dataset, c: CaseName, a: nat, k: nat)
    requires Waiting(s, data, c, a) && t == Run(s, g) && Sound(t, data)
    requires pid < |s.procs| && s.procs[pid].kind.Collect? && k <= |s.procs[pid].todo| && Reached(s, t, pid, k)
    requires forall i :: 0 <= i < k ==> s.procs[pid].todo[i] != c.id
    ensures Waiting(t, data, c, a)
  {
    hide Run, Invariant, CollectionsOk, HasRow, Loadable, NothingBefore, Reached;
    ReachedNames(s, t, pid, k, data, c);
    NamesGrow(s, g);
    assert Reserved(c, a) in Names(s) && Reserved(c, a) in Names(t);
    HasRowStays(s, g, data.parents[c.id]);
  }

  /** The parent was passed without a good row, now or before. */
  lemma MissedOnArrival(s: State, t: State, pid: nat, data: Dataset, c: CaseName, k: nat)
    requires Sound(s, data) && Loadable(data) && c.id in data.parents && Settled(s.disk, data.parents[c.id])
    requires pid < |s.procs| && s.procs[pid].kind.Collect? && s.procs[pid].phase.Deciding? && k < |s.procs[pid].todo|
    requires s.procs[pid].todo[k] == c.id && Reached(s, t, pid, k) && MayMiss(s.disk, s.procs[pid], data.parents[c.id])
    ensures t.procs[pid].kind == s.procs[pid].kind && t.procs[pid].phase.Deciding?
    ensures t.procs[pid].todo != [] && t.procs[pid].todo[0] == c.id && MissesParent(t.procs[pid], c.id)
  {
    hide Invariant, CollectionsOk, HasRow, Loadable, Unblocked, Rest;
    var p, parent := s.procs[pid], data.parents[c.id];
    CollectionOk(s, pid, data);
    ParentIsPassed(data, p.todo, k);
    hide CollectOk;
  }

  lemma ParentIsPassed(data: Dataset, todo: seq<string>, k: nat)
    requires Loadable(data) && Rest(todo, data.cases) && k < |todo| && todo[k] in data.parents
    ensures data.parents[todo[k]] in todo <==> data.parents[todo[k]] in todo[..k]
  {
    var rest := todo[k..];
    assert Rest(rest, data.cases);
    ParentIsBehind(data, rest);
    hide Loadable, Rest;
    assert todo == todo[..k] + rest;
  }

  /** A collection in the middle of another case finishes that case first. */
  lemma ComesAfterItsCase(s: State, pid: nat, data: Dataset, c: CaseName, a: nat) returns (g: seq<Label>)
    requires Waiting(s, data, c, a) && pid < |s.procs| && Stale(s.disk, data, s.procs[pid], c, a)
    requires Working(s.procs[pid].phase) && !UnsentRetry(s.procs[pid].phase, c, a)
    ensures NoSpawns(g) && Waiting(Run(s, g), data, c, a) && Coming(Run(s, g), pid, data, c, a)
    ensures |Run(s, g).procs| == |s.procs|
    ensures forall q :: q in Run(s, g).disk.paths && q !in s.disk.paths ==> q.caseId != c
  {
    hide Run, Invariant, CollectionsOk, HasRow, Loadable, Unblocked, Settled, Viable, RowIs, NothingBefore;
    var p := s.procs[pid];
    var y := p.phase.caseId;
    CollectionOk(s, pid, data);
    OwnCaseIsAnother(data, p, c);
    g := CaseFinishes(s, pid, Other);
    var t := Run(s, g);
    OverNoSpawns(g, data);
    SoundAlways(s, g, data);
    NamesGrow(s, g);
    HasRowStays(s, g, data.parents[c.id]);
    SettledStays(s, t, data.parents[c.id]);
    BlockedNowhere(s, t, pid, data, c);
    FinalRowsAgree(t, data.parents[c.id]);
    assert Reserved(c, a) in Names(s) && Reserved(c, a) in Names(t);
    forall q | q in t.disk.paths && q !in s.disk.paths ensures q.caseId == y { assert q in Names(t); }
    AheadAfterCase(s, t, pid, data, c);
  }

  lemma OwnCaseIsAnother(data: Dataset, p: Process, c: CaseName)
    requires Loadable(data) && p.kind.Collect? && Rest(p.todo, data.cases) && p.todo != [] && c.BatchCase? && c.id in p.todo[1..]
    ensures c.id != p.todo[0]
  {
    RestDistinct(data, p.todo);
  }

  lemma SettledStays(s: State, t: State, id: string)
    requires Settled(s.disk, id) && forall o :: HasRow(s.disk, id, o) ==> HasRow(t.disk, id, o)
    ensures Settled(t.disk, id)
  {
    hide HasRow;
  }

  /** Finishing its case, a process opens nothing. */
  lemma BlockedNowhere(s: State, t: State, pid: nat, data: Dataset, c: CaseName)
    requires pid < |s.procs| && Working(s.procs[pid].phase) && |t.procs| == |s.procs| && t.procs == s.procs[pid := t.procs[pid]]
    requires var y, b := s.procs[pid].phase.caseId, s.procs[pid].phase.attempt;
             Names(s) + {Published(y, b)} <= Names(t) <= Names(s) + {Reserved(y, b), Published(y, b)}
    requires NothingBefore(s, data, c)
    ensures NothingBefore(t, data, c)
  {
    hide Unblocked;
    var y := s.procs[pid].phase.caseId;
    forall q | q in t.disk.paths && q !in s.disk.paths ensures q.caseId == y { assert q in Names(t); }
    forall i: nat, j: nat | i < j < |data.cases| && data.cases[j] == c.id ensures Unblocked(t, BatchCase(data.cases[i])) {
      assert Unblocked(s, BatchCase(data.cases[i]));
      if BatchCase(data.cases[i]) == y { OwnCaseUnblocked(s, t, pid); } else { UnblockedKept(s, t, pid, y, BatchCase(data.cases[i])); }
    }
  }

  lemma OwnCaseUnblocked(s: State, t: State, pid: nat)
    requires pid < |s.procs| && Working(s.procs[pid].phase) && |t.procs| == |s.procs| && t.procs == s.procs[pid := t.procs[pid]]
    requires var y, b := s.procs[pid].phase.caseId, s.procs[pid].phase.attempt;
             Unblocked(s, y) && Names(s) + {Published(y, b)} <= Names(t) <= Names(s) + {Reserved(y, b), Published(y, b)}
    ensures Unblocked(t, s.procs[pid].phase.caseId)
  {
    var y, b := s.procs[pid].phase.caseId, s.procs[pid].phase.attempt;
    assert Published(y, b) in Names(t);
    forall d: nat | Reserved(y, d) in t.disk.paths && Published(y, d) !in t.disk.paths ensures exists r: nat :: Underway(t, r, y, d) {
      assert Reserved(y, d) in Names(t) && Published(y, d) !in Names(t) && d != b;
      assert Reserved(y, d) in Names(s);
      var r: nat :| Underway(s, r, y, d);
      assert r != pid && t.procs[r] == s.procs[r];
      assert Underway(t, r, y, d);
    }
  }

  lemma AheadAfterCase(s: State, t: State, pid: nat, data: Dataset, c: CaseName)
    requires pid < |s.procs| && |t.procs| == |s.procs| && c.id in data.parents && s.procs[pid].kind.Collect?
    requires Working(s.procs[pid].phase) && s.procs[pid].todo != [] && MayMiss(s.disk, s.procs[pid], data.parents[c.id])
    requires t.procs[pid] == NextCase(s.procs[pid], ComingRow(s.procs[pid], Other))
    requires Settled(s.disk, data.parents[c.id]) && forall o :: HasRow(s.disk, data.parents[c.id], o) ==> HasRow(t.disk, data.parents[c.id], o)
    requires !(HasRow(t.disk, data.parents[c.id], Answered) && HasRow(t.disk, data.parents[c.id], Replaceable))
    ensures MayMiss(t.disk, t.procs[pid], data.parents[c.id])
  {
    hide HasRow;
  }

  /** A stale collection brings a retryable row of the crashed attempt. */
  lemma StaleBringsRow(s: State, pid: nat, data: Dataset, c: CaseName, a: nat) returns (g: seq<Label>)
    requires Waiting(s, data, c, a) && pid < |s.procs| && Stale(s.disk, data, s.procs[pid], c, a)
    ensures NoSpawns(g) && RowPublished(s, Run(s, g), data, c, a)
  {
    hide Run, Invariant, CollectionsOk, HasRow, Loadable, Unblocked, Settled, MayMiss, NothingBefore;
    var p := s.procs[pid];
    if UnsentRetry(p.phase, c, a) {
      g := PublishingFinishes(s, pid);
      OwnNamesOnly(s, Run(s, g), pid, data, c, {Published(c, a)});
    } else if Working(p.phase) {
      var g1 := ComesAfterItsCase(s, pid, data, c, a);
      var g2 := ComesAndPublishes(Run(s, g1), pid, data, c, a);
      g := g1 + g2;
      RunConcat(s, g1, g2);
    } else {
      g := ComesAndPublishes(s, pid, data, c, a);
    }
  }

  // ---------- a resumed collection sends the next attempt ----------

  /** A resumed collection that stands at a case whose newest row may be retried sends the next attempt, provided the
      attempt is not reserved and, for a follow-up, it holds a good row of the parent. */
  lemma ResumedRerunSends(s: State, pid: nat, b: nat) returns (g: seq<Label>)
    requires Invariant(s) && pid < |s.procs| && s.procs[pid].kind.Collect? && s.procs[pid].phase.Deciding? && s.procs[pid].todo != []
    requires CallsFor(s.disk, s.procs[pid], b) && !MissesParent(s.procs[pid], s.procs[pid].todo[0])
    requires Reserved(BatchCase(s.procs[pid].todo[0]), b + 1) !in s.disk.paths
    ensures NoSpawns(g)
    ensures Run(s, g).sent == s.sent + [Dispatch(BatchCase(s.procs[pid].todo[0]), b + 1, pid)]
  {
    hide Run, Decide, Invariant, CallsFor, MissesParent;
    var p, c := s.procs[pid], BatchCase(s.procs[pid].todo[0]);
    var l := Tick(pid, Fine(b, 0, Retryable));
    CaseIsTakenUp(s, p, b);
    TickDeciding(s, pid, l.env);
    StepKeepsInvariant(s, l);
    var t := Step(s, l);
    hide Viable, Step;
    var g2 := ReservingFinishes(t, pid);
    RunFirst(s, l, g2);
    var u := Run(t, g2);
    g := [l] + g2 + [l];
    RunMore(s, [l] + g2, l);
    TickReadySends(u, pid, l.env);
  }

  /** The collection that sends the case again: resumed, over the whole dataset, with the parent selected when its
      own row is not good. */
  ghost function Sender(s: State, data: Dataset, parent: string): Kind {
    Collect(true, data, if HasRow(s.disk, parent, Answered) then None else Some(parent))
  }

  lemma SenderStarts(s: State, data: Dataset, id: string)
    requires Invariant(s) && Loadable(data) && id in data.parents && Settled(s.disk, data.parents[id])
    ensures var kind := Sender(s, data, data.parents[id]);
            Step(s, Spawn(kind)) == s.(procs := s.procs + [Process(kind, data.cases, {}, Deciding)])
  {
    var parent := data.parents[id];
    ParentIsAhead(data, id);
    SelectableMeans(s, parent);
    hide Invariant, HasRow, Loadable, Selectable;
  }

  lemma SpawnUnblocks(s: State, p: Process, data: Dataset, c: CaseName)
    requires NothingBefore(s, data, c)
    ensures NothingBefore(s.(procs := s.procs + [p]), data, c)
  {
    hide Viable;
    var t := s.(procs := s.procs + [p]);
    forall i: nat, j: nat | i < j < |data.cases| && data.cases[j] == c.id ensures Unblocked(t, BatchCase(data.cases[i])) {
      var y := BatchCase(data.cases[i]);
      assert Unblocked(s, y);
      forall b: nat | Reserved(y, b) in t.disk.paths && Published(y, b) !in t.disk.paths ensures exists r: nat :: Underway(t, r, y, b) {
        var r: nat :| Underway(s, r, y, b);
        assert Underway(t, r, y, b);
      }
    }
  }

  lemma SenderArrives(t: State, u: State, pid: nat, data: Dataset, c: CaseName, k: nat)
    requires Loadable(data) && c.BatchCase? && c.id in data.parents && k < |data.cases| && data.cases[k] == c.id && pid < |t.procs|
    requires t.procs[pid] == Process(Sender(t, data, data.parents[c.id]), data.cases, {}, Deciding) && Reached(t, u, pid, k)
    ensures var p := u.procs[pid];
            && p.kind == Sender(t, data, data.parents[c.id]) && p.phase.Deciding? && p.todo != [] && p.todo[0] == c.id
            && p.kind.selected != Some(c.id) && !MissesParent(p, c.id)
  {
    var parent := data.parents[c.id];
    ParentIsAhead(data, c.id);
    ParentIsPassed(data, data.cases, k);
    assert Rest(data.cases[k..], data.cases);
    ParentIsBehind(data, data.cases[k..]);
    hide HasRow, Loadable, Unblocked;
  }

  lemma {:induction false} RowStays(s: State, g: seq<Label>, c: CaseName, n: nat, outcome: Outcome)
    requires Invariant(s) && RowIs(s.disk, c, n, outcome)
    ensures RowIs(Run(s, g).disk, c, n, outcome)
    decreases |g|
  {
    hide Step, Invariant, RowIs;
    if g != [] {
      var init := g[..|g| - 1];
      RowStays(s, init, c, n, outcome);
      RunKeepsInvariant(s, init);
      RowKept(Run(s, init), g[|g| - 1], c, n, outcome);
    }
  }

  lemma NewestStays(t: State, u: State, c: CaseName, a: nat)
    requires IsLatest(t.disk, c, a) && RowIs(u.disk, c, a, Retryable)
    requires forall b: nat :: Published(c, b) in u.disk.paths ==> Published(c, b) in t.disk.paths
    ensures IsLatest(u.disk, c, a)
  {
    forall p | p in u.disk.paths && p.Published? && p.caseId == c ensures p.attempt <= a {
      assert p == Published(c, p.attempt) && p in t.disk.paths;
    }
  }

  /** Once the retryable row of the crashed attempt is published, a new collection sends the next attempt. */
  lemma FreshCollectionSends(s: State, data: Dataset, c: CaseName, a: nat) returns (g: seq<Label>)
    requires Sound(s, data) && Loadable(data) && c.BatchCase? && c.id in data.cases && NothingBefore(s, data, c)
    requires RowIs(s.disk, c, a, Retryable) && IsLatest(s.disk, c, a) && a > 0 && Reserved(c, a + 1) !in s.disk.paths
    requires c.id in data.parents && Settled(s.disk, data.parents[c.id])
    ensures Over(g, data) && Dispatch(c, a + 1, |s.procs|) in Run(s, g).sent
  {
    hide Run, Step, Invariant, CollectionsOk, HasRow, Loadable, Unblocked, Reached, IsLatest, RowIs, Settled, NothingBefore;
    var n, kind := |s.procs|, Sender(s, data, data.parents[c.id]);
    var l, p := Spawn(kind), Process(kind, data.cases, {}, Deciding);
    SenderStarts(s, data, c.id);
    var t := Step(s, l);
    StepKeepsInvariant(s, l);
    CollectionsStep(s, l, data);
    var k: nat :| k < |data.cases| && data.cases[k] == c.id;
    SpawnUnblocks(s, p, data, c);
    CasesAhead(t, data, c, data.cases, k);
    var g1 := Reaches(t, n, k, Other, data);
    var u := Run(t, g1);
    ReachedNames(t, u, n, k, data, c);
    SenderArrives(t, u, n, data, c, k);
    RowStays(t, g1, c, a, Retryable);
    NewestStays(t, u, c, a);
    RunKeepsInvariant(t, g1);
    var g2 := ResumedRerunSends(u, n, a);
    g := [l] + (g1 + g2);
    RunFirst(s, l, g1 + g2);
    RunConcat(t, g1, g2);
  }

  // ---------- exactly when a crashed case is sent again ----------

  ghost predicate CanBeSentAgain(h: seq<Label>, data: Dataset, c: CaseName, a: nat) {
    exists g, x :: Over(g, data) && SentAgain(h, g, c, a, x)
  }

  predicate SentAgain(h: seq<Label>, g: seq<Label>, c: CaseName, a: nat, x: Dispatch) {
    x in Run(START, h + g).sent && x.caseId == c && x.attempt > a
  }

  /** Without a good row of the parent on disk, a new collection is stale from the start. */
  lemma NewStaleCollection(s: State, data: Dataset, c: CaseName, a: nat) returns (t: State, l: Label)
    requires Waiting(s, data, c, a) && !HasRow(s.disk, data.parents[c.id], Answered)
    ensures l == Spawn(Collect(true, data, None)) && t == Step(s, l) && Waiting(t, data, c, a)
    ensures t.disk == s.disk && |t.procs| == |s.procs| + 1 && Stale(t.disk, data, t.procs[|s.procs|], c, a)
  {
    l := Spawn(Collect(true, data, None));
    t := Step(s, l);
    StepKeepsInvariant(s, l);
    CollectionsStep(s, l, data);
    SpawnUnblocks(s, t.procs[|s.procs|], data, c);
    ParentIsAhead(data, c.id);
    hide Invariant, CollectionsOk, HasRow, Loadable, NothingBefore;
  }

  /** After a crash, a follow-up whose parent can be missed is sent again by a process started later. */
  lemma MissedParentIsSentAgain(h: seq<Label>, data: Dataset, c: CaseName, a: nat) returns (g: seq<Label>, x: Dispatch)
    requires Loadable(data) && Over(h, data) && CollectionCrash(Run(START, h), c, a)
    requires NothingBefore(Run(START, h), data, c) && ParentCanBeMissed(Run(START, h), data, c, a)
    ensures Over(g, data) && SentAgain(h, g, c, a, x) && |Run(START, h).procs| <= x.pid
  {
    hide Run, Step, Invariant, CollectionsOk, HasRow, Loadable, Settled, NothingBefore, Stale, RowIs, IsLatest;
    var s := Run(START, h);
    SoundFromStart(h, data);
    CrashWaits(s, data, c, a);
    var t, g0, pid := s, [], 0;
    if HasRow(s.disk, data.parents[c.id], Answered) {
      pid :| 0 <= pid < |s.procs| && Stale(s.disk, data, s.procs[pid], c, a);
      EmptyRun(s);
    } else {
      var l;
      t, l := NewStaleCollection(s, data, c, a);
      g0, pid := [l], |s.procs|;
      RunFirst(s, l, []);
      EmptyRun(t);
    }
    assert Over(g0, data) && t == Run(s, g0);
    var g1 := StaleBringsRow(t, pid, data, c, a);
    var u := Run(t, g1);
    OverNoSpawns(g1, data);
    SoundAlways(t, g1, data);
    HasRowStays(t, g1, data.parents[c.id]);
    SettledStays(t, u, data.parents[c.id]);
    NextIsOpen(t, u, c, a);
    var g2 := FreshCollectionSends(u, data, c, a);
    g, x := g0 + (g1 + g2), Dispatch(c, a + 1, |u.procs|);
    RunConcat(t, g1, g2);
    RunConcat(s, g0, g1 + g2);
    RunConcat(START, h, g);
  }

  lemma CrashWaits(s: State, data: Dataset, c: CaseName, a: nat)
    requires Sound(s, data) && Loadable(data) && CollectionCrash(s, c, a) && NothingBefore(s, data, c) && c.id in data.parents
    ensures Waiting(s, data, c, a)
  {
    hide Invariant, HasRow, Loadable, NothingBefore, CollectOk, Settled;
  }

  /** The retryable row that was just published is the newest one, and no attempt behind it is reserved. */
  lemma NextIsOpen(t: State, u: State, c: CaseName, a: nat)
    requires Invariant(t) && Invariant(u) && RowIs(u.disk, c, a, Retryable) && Published(c, a) !in t.disk.paths
    requires forall b: nat :: (Reserved(c, b) in u.disk.paths ==> Reserved(c, b) in t.disk.paths)
                              && (Published(c, b) in u.disk.paths ==> b == a || Published(c, b) in t.disk.paths)
    ensures Reserved(c, a + 1) !in u.disk.paths && IsLatest(u.disk, c, a) && a > 0
  {
    hide Invariant;
    PublishedAttempt(u, c, a);
    if Reserved(c, a + 1) in u.disk.paths { ReservedAttempt(t, c, a + 1); }
    forall p | p in u.disk.paths && p.Published? && p.caseId == c ensures p.attempt <= a {
      var b := p.attempt;
      assert p == Published(c, b);
      if b > a {
        PublishedAttempt(t, c, b);
        EarlierRows(t, c, b, a);
      }
    }
  }

  /** A crashed case can be sent again if and only if its parent can be missed, provided no case before it in the
      dataset is blocked by a crash of its own. */
  lemma CrashedCaseIsSentAgainIff(h: seq<Label>, data: Dataset, c: CaseName, a: nat)
    requires Loadable(data) && Over(h, data) && CollectionCrash(Run(START, h), c, a) && NothingBefore(Run(START, h), data, c)
    ensures CanBeSentAgain(h, data, c, a) <==> ParentCanBeMissed(Run(START, h), data, c, a)
  {
    hide Run, Over, Loadable, ParentCanBeMissed, CollectionCrash, NothingBefore;
    if ParentCanBeMissed(Run(START, h), data, c, a) {
      var g, x := MissedParentIsSentAgain(h, data, c, a);
    } else {
      forall g, x | Over(g, data) ensures !SentAgain(h, g, c, a, x) { NotSentAgainUnlessMissed(h, g, data, c, a); }
    }
  }

  /** When every collection is over, and the parent of the case, if it has one, has a good row of its own, a rerun
      sends nothing for the case. */
  lemma RerunAfterACrashSendsNothing(h: seq<Label>, g: seq<Label>, data: Dataset, c: CaseName, a: nat)
    requires Loadable(data) && Over(h, data) && Over(g, data) && CollectionCrash(Run(START, h), c, a)
    requires var s := Run(START, h); forall pid :: 0 <= pid < |s.procs| && s.procs[pid].kind.Collect? ==> s.procs[pid].phase.Stopped?
    requires c.id in data.parents ==> HasRow(Run(START, h).disk, data.parents[c.id], Answered)
    ensures forall x :: x in Run(START, h + g).sent && x.caseId == c ==> x.attempt <= a && x.pid < |Run(START, h).procs|
  {
    hide Run, HasRow, Over, Loadable, CollectionCrash, Stale;
    var s := Run(START, h);
    forall pid | 0 <= pid < |s.procs| ensures !Stale(s.disk, data, s.procs[pid], c, a) {
      if Stale(s.disk, data, s.procs[pid], c, a) { StaleIsLive(s.disk, data, s.procs[pid], c, a); }
    }
    NotSentAgainUnlessMissed(h, g, data, c, a);
  }

  // ---------- a concrete run ----------

  const TWO_CASES := Dataset(["p", "c"], map["c" := "p"])
  const PARENT := BatchCase("p")
  const CHILD := BatchCase("c")

  function Starting(resume: bool): Process {
    Process(Collect(resume, TWO_CASES, None), ["p", "c"], {}, Deciding)
  }

  lemma CollectionStarts(s: State, resume: bool)
    requires Invariant(s)
    ensures Step(s, Spawn(Starting(resume).kind)) == s.(procs := s.procs + [Starting(resume)])
    ensures Invariant(Step(s, Spawn(Starting(resume).kind)))
  {
    StepKeepsInvariant(s, Spawn(Starting(resume).kind));
  }

  lemma RunStops(s: State, g: seq<Label>, pid: nat)
    requires Invariant(s) && pid < |Run(s, g).procs|
    ensures var t := Run(s, g); Run(s, g + [Crash(pid)]) == t.(procs := t.procs[pid := t.procs[pid].(phase := Stopped)])
    ensures Invariant(Run(s, g)) && Invariant(Run(s, g + [Crash(pid)]))
  {
    RunMore(s, g, Crash(pid));
    RunKeepsInvariant(s, g);
    RunKeepsInvariant(s, g + [Crash(pid)]);
  }

  /** Only the parent has files, all its reservations have rows, and its newest row is the `n`-th, with that outcome. */
  predicate OnlyParent(s: State, n: nat, outcome: Outcome) {
    RowIs(s.disk, PARENT, n, outcome) && AllPublished(s, PARENT)
    && forall q :: q in s.disk.paths ==> q.caseId == PARENT && q.attempt <= n
  }

  lemma NewestOfParent(s: State, n: nat, outcome: Outcome)
    requires OnlyParent(s, n, outcome)
    ensures IsLatest(s.disk, PARENT, n) && IsLatest(s.disk, CHILD, 0)
  {
  }

  lemma ParentRowPublished(s: State, pid: nat, n: nat, outcome: Outcome) returns (g: seq<Label>)
    requires Invariant(s) && pid < |s.procs| && s.procs[pid] == Starting(n > 0) && AllPublished(s, PARENT)
    requires IsLatest(s.disk, PARENT, n) && forall q :: q in s.disk.paths ==> q.caseId == PARENT && q.attempt <= n
    requires n > 0 ==> RowIs(s.disk, PARENT, n, Retryable)
    ensures NoSpawns(g) && Invariant(Run(s, g)) && OnlyParent(Run(s, g), n + 1, outcome) && |Run(s, g).procs| == |s.procs|
    ensures Run(s, g).procs[pid] == Starting(n > 0).(todo := ["c"], good := if outcome.Answered? then {"p"} else {})
    ensures forall r :: 0 <= r < |s.procs| && r != pid && !Working(s.procs[r].phase) ==> Run(s, g).procs[r] == s.procs[r]
  {
    hide Run, Step, Invariant, RowIs, IsLatest, HasRow, AllPublished;
    g := TakesUpCase(s, pid, n, outcome);
    RunKeepsInvariant(s, g);
    assert ["p", "c"][1..] == ["c"];
    var good := Run(s, g).procs[pid].good;
    forall x | x in good ensures x == "p" { assert x in good - {"p"} || x == "p"; }
  }

  /** The first collection publishes the parent's row as paused and stops. */
  lemma FirstCollection() returns (h: seq<Label>)
    ensures Over(h, TWO_CASES) && Invariant(Run(START, h)) && OnlyParent(Run(START, h), 1, Retryable)
    ensures |Run(START, h).procs| == 1 && Run(START, h).procs[0].phase.Stopped?
  {
    hide Run, Step, Invariant, RowIs, OnlyParent;
    InvariantAlways([]);
    EmptyRun(START);
    CollectionStarts(START, false);
    var l := Spawn(Starting(false).kind);
    var s := Step(START, l);
    assert s.procs[0] == Starting(false);
    var g := ParentRowPublished(s, 0, 0, Retryable);
    RunFirst(START, l, g + [Crash(0)]);
    RunStops(s, g, 0);
    h := [l] + (g + [Crash(0)]);
    SameDisk(Run(s, g), Run(START, h), 1, Retryable);
  }

  lemma SameDisk(s: State, t: State, n: nat, outcome: Outcome)
    requires OnlyParent(s, n, outcome) && t.disk == s.disk
    ensures OnlyParent(t, n, outcome)
  {
  }

  /** The second one reads that row without resuming, and stands at the follow-up without a good parent. */
  lemma SecondCollection() returns (h: seq<Label>)
    ensures Over(h, TWO_CASES) && Invariant(Run(START, h)) && OnlyParent(Run(START, h), 1, Retryable)
    ensures |Run(START, h).procs| == 2 && Run(START, h).procs[0].phase.Stopped?
    ensures Run(START, h).procs[1] == Starting(false).(todo := ["c"])
  {
    hide Run, Step, Invariant, RowIs, IsLatest, HasRow, OnlyParent;
    var h0 := FirstCollection();
    var s := Run(START, h0);
    CollectionStarts(s, false);
    var l := Spawn(Starting(false).kind);
    var t := Step(s, l);
    assert t.procs[1] == Starting(false) && t.procs[0] == s.procs[0];
    SameDisk(s, t, 1, Retryable);
    NewestOfParent(t, 1, Retryable);
    var l2 := PassesRow(t, 1, 1);
    StepKeepsInvariant(t, l2);
    h := h0 + [l] + [l2];
    RunMore(START, h0, l);
    RunMore(START, h0 + [l], l2);
    SameDisk(t, Run(START, h), 1, Retryable);
    NotAnswered(t);
    assert ["p", "c"][1..] == ["c"];
    var good := Run(START, h).procs[1].good;
    forall x ensures x !in good { assert x in good - {"p"} || x == "p" || x !in good; }
    assert good == {};
  }

  lemma NotAnswered(s: State)
    requires OnlyParent(s, 1, Retryable)
    ensures !RowIs(s.disk, PARENT, 1, Answered)
  {
  }

  /** A third one resumes: it publishes the good row of the parent, reserves the follow-up, and crashes. */
  lemma ThirdCollection() returns (h: seq<Label>)
    ensures Over(h, TWO_CASES) && |Run(START, h).procs| == 3
    ensures Run(START, h).procs[1] == Starting(false).(todo := ["c"]) && RowIs(Run(START, h).disk, PARENT, 2, Answered)
    ensures CollectionCrash(Run(START, h), CHILD, 1) && AllPublished(Run(START, h), PARENT)
  {
    hide Run, Step, Invariant, RowIs, IsLatest, OnlyParent, HasRow, AllPublished, NoSpawns, Viable, CollectionCrash;
    var h0 := SecondCollection();
    var s := Run(START, h0);
    CollectionStarts(s, true);
    var l := Spawn(Starting(true).kind);
    var t := Step(s, l);
    SameDisk(s, t, 1, Retryable);
    NewestOfParent(t, 1, Retryable);
    ParentFiles(t, 1, Retryable);
    var g1 := ParentRowPublished(t, 2, 1, Answered);
    var u := Run(t, g1);
    ParentFiles(u, 2, Answered);
    var g2 := ChildReserved(u, 2);
    var v := Run(u, g2);
    h := h0 + ([l] + (g1 + (g2 + [Crash(2)])));
    RunConcat(START, h0, [l] + (g1 + (g2 + [Crash(2)])));
    RunFirst(s, l, g1 + (g2 + [Crash(2)]));
    RunConcat(t, g1, g2 + [Crash(2)]);
    RunStops(u, g2, 2);
    RowStays(u, g2, PARENT, 2, Answered);
    ChildCrashed(u, v, Run(START, h));
    OverParts(h0, l, g1, g2);
  }

  lemma ParentFiles(s: State, n: nat, outcome: Outcome)
    requires OnlyParent(s, n, outcome)
    ensures RowIs(s.disk, PARENT, n, outcome) && AllPublished(s, PARENT)
    ensures forall q :: q in s.disk.paths ==> q.caseId == PARENT && q.attempt <= n
  {
  }

  lemma OverParts(h: seq<Label>, l: Label, g1: seq<Label>, g2: seq<Label>)
    requires Over(h, TWO_CASES) && l == Spawn(Starting(true).kind) && NoSpawns(g1) && NoSpawns(g2)
    ensures Over(h + ([l] + (g1 + (g2 + [Crash(2)]))), TWO_CASES)
  {
  }

  lemma ChildReserved(s: State, pid: nat) returns (g: seq<Label>)
    requires Invariant(s) && pid < |s.procs| && s.procs[pid] == Starting(true).(todo := ["c"], good := {"p"})
    requires forall q :: q in s.disk.paths ==> q.caseId == PARENT
    ensures NoSpawns(g) && Run(s, g).procs == s.procs[pid := s.procs[pid].(phase := Ready(CHILD, 1))]
    ensures Names(Run(s, g)) == Names(s) + {Reserved(CHILD, 1)}
  {
    hide Run, Decide, Invariant, RowIs;
    var l := Tick(pid, Fine(0, 0, Retryable));
    CaseIsTakenUp(s, s.procs[pid], 0);
    TickDeciding(s, pid, l.env);
    StepKeepsInvariant(s, l);
    hide Viable, Step;
    var g2 := ReservingFinishes(Step(s, l), pid);
    g := [l] + g2;
    RunFirst(s, l, g2);
  }

  lemma ChildCrashed(u: State, v: State, t: State)
    requires Invariant(v) && |v.procs| == 3 && t == v.(procs := v.procs[2 := v.procs[2].(phase := Stopped)])
    requires v.procs[2].phase == Ready(CHILD, 1) && v.procs[2].kind.Collect? && Names(v) == Names(u) + {Reserved(CHILD, 1)}
    requires AllPublished(u, PARENT) && forall q :: q in u.disk.paths ==> q.caseId == PARENT
    ensures CollectionCrash(t, CHILD, 1) && AllPublished(t, PARENT)
  {
    assert ProcessOk(v.disk, v.sent, 2, v.procs[2]);
    assert Owns(t.disk, 2, CHILD, 1);
    assert Published(CHILD, 1) !in Names(v);
    hide Invariant;
    forall q | q in t.disk.paths && q.Reserved? && q.caseId == PARENT ensures Published(PARENT, q.attempt) in t.disk.paths {
      assert q in Names(v) && q in Names(u);
      assert Published(PARENT, q.attempt) in Names(u) && Published(PARENT, q.attempt) in Names(v);
    }
  }

  lemma TwoCasesLoad()
    ensures Loadable(TWO_CASES)
  {
    assert TWO_CASES.cases[0] == "p" && TWO_CASES.cases[1] == "c";
  }

  /** A concrete run: the parent's row is paused; the second collection reads it; the third resumes, publishes a good
      one, reserves the follow-up and crashes; the second, still holding the old row, publishes a row without a
      dispatch; a fourth one takes that for a retry and sends the second attempt. */
  lemma AStaleCollection() returns (h: seq<Label>, g: seq<Label>, x: Dispatch)
    ensures Over(h, TWO_CASES) && Over(g, TWO_CASES) && CollectionCrash(Run(START, h), CHILD, 1)
    ensures HasRow(Run(START, h).disk, "p", Answered)
    ensures SentAgain(h, g, CHILD, 1, x) && |Run(START, h).procs| <= x.pid
  {
    hide Run, RowIs, AllPublished, CollectionCrash, Over, SentAgain;
    h := ThirdCollection();
    var s := Run(START, h);
    TwoCasesLoad();
    PublishedIsUnblocked(s, PARENT);
    hide Unblocked;
    assert TWO_CASES.cases[0] == "p" && TWO_CASES.cases[1] == "c";
    assert NothingBefore(s, TWO_CASES, CHILD);
    assert Stale(s.disk, TWO_CASES, s.procs[1], CHILD, 1);
    g, x := MissedParentIsSentAgain(h, TWO_CASES, CHILD, 1);
  }
}
