/** What the published rows say: what their sender saw after its dispatch, and which cases a run has behind it. */
module PublishedRows {
  import opened ProcessRuns
  import opened ReportDispatch
  import opened Wrappers

  // ---------- every row records what was seen ----------

  /** A process in this state, taking a step in this environment, has seen what the row says. */
  predicate Sees(p: Process, e: Env, row: Row) {
    if row.dispatched then
      && p.phase == Sent(row.caseId, row.attempt) && !e.fails && row.passed == e.passed
      && row.outcome == if p.kind.Collect? || e.outcome.Retryable? then e.outcome else Other
    else
      && p.kind.Collect? && p.phase.Deciding? && p.todo != [] && row.caseId == BatchCase(p.todo[0]) && !e.paused && !row.passed
      && p.todo[0] in p.kind.data.parents && p.kind.data.parents[p.todo[0]] !in p.good
      && row.outcome == if e.outcome.Retryable? then Retryable else Other
  }

  ghost predicate SeenAt(h: seq<Label>, i: nat, row: Row) {
    i < |h| && h[i].Tick? && h[i].pid < |At(h, i).procs| && Sees(At(h, i).procs[h[i].pid], h[i].env, row)
  }

  ghost predicate Seen(h: seq<Label>, row: Row) {
    exists i: nat :: SeenAt(h, i, row)
  }

  lemma SeenStays(h: seq<Label>, l: Label, row: Row)
    requires Seen(h, row)
    ensures Seen(h + [l], row)
  {
    hide Sees;
    var i: nat :| SeenAt(h, i, row);
    assert (h + [l])[..i] == h[..i];
    assert SeenAt(h + [l], i, row);
  }

  /** A process begins to publish what it has just seen, and publishes nothing else afterwards. */
  lemma NewRowIsSeen(d: Disk, pid: nat, p: Process, e: Env)
    ensures var phase := Advance(d, pid, p, e).1.phase;
            phase.Publishing? ==> (p.phase.Publishing? && p.phase.row == phase.row) || Sees(p, e, phase.row)
  {
    hide WriterStep, IsLatest, Readable;
  }

  /** A new row on disk is the one its publisher holds. */
  lemma NewFileIsHeld(s: State, pid: nat, e: Env, q: Path)
    requires Invariant(s) && pid < |s.procs| && q.Published?
    requires var d := Advance(s.disk, pid, s.procs[pid], e).0; q in d.paths && q !in s.disk.paths
    ensures var d := Advance(s.disk, pid, s.procs[pid], e).0;
            s.procs[pid].phase.Publishing? && d.paths[q] < |d.files| && d.files[d.paths[q]].doc == Observation(s.procs[pid].phase.row)
  {
    var p := s.procs[pid];
    forall q | q in s.disk.paths ensures Readable(s.disk, q) { assert PathOk(s.disk, s.sent, q); }
    assert ProcessOk(s.disk, s.sent, pid, p);
    match p.phase
    case Reserving(c, a, w) => WriterGrows(s.disk, pid, w, Reserved(c, a), Note(c, a), e);
    case Publishing(c, a, row, w) => WriterGrows(s.disk, pid, w, Published(c, a), Observation(row), e);
    case _ =>
  }

  ghost predicate Recorded(h: seq<Label>) {
    var s := Run(START, h);
    && (forall pid :: 0 <= pid < |s.procs| && s.procs[pid].phase.Publishing? ==> Seen(h, s.procs[pid].phase.row))
    && (forall q :: q in s.disk.paths && q.Published? && Readable(s.disk, q) && s.disk.files[s.disk.paths[q]].doc.Observation? ==>
          Seen(h, s.disk.files[s.disk.paths[q]].doc.row))
  }

  lemma RecordedStep(h: seq<Label>, l: Label)
    requires Recorded(h)
    ensures Recorded(h + [l])
  {
    InvariantAlways(h);
    InvariantAlways(h + [l]);
    RunMore(START, h, l);
    var s, t := Run(START, h), Run(START, h + [l]);
    assert (h + [l])[..|h|] == h;
    forall row | Seen(h, row) ensures Seen(h + [l], row) { SeenStays(h, l, row); }
    hide Run, Sees, Invariant, Advance;
    if l.Tick? && l.pid < |s.procs| {
      var p := s.procs[l.pid];
      NewRowIsSeen(s.disk, l.pid, p, l.env);
      var phase := t.procs[l.pid].phase;
      if phase.Publishing? && !(p.phase.Publishing? && p.phase.row == phase.row) {
        assert SeenAt(h + [l], |h|, phase.row);
      }
      forall q | q in t.disk.paths && q.Published? && Readable(t.disk, q) && t.disk.files[t.disk.paths[q]].doc.Observation?
        ensures Seen(h + [l], t.disk.files[t.disk.paths[q]].doc.row)
      {
        if q in s.disk.paths { PathsKept(s, l, q); } else { NewFileIsHeld(s, l.pid, l.env, q); }
      }
    }
  }

  lemma {:induction false} RecordedAlways(h: seq<Label>)
    ensures Recorded(h)
    decreases |h|
  {
    if h != [] {
      RecordedAlways(h[..|h| - 1]);
      RecordedStep(h[..|h| - 1], h[|h| - 1]);
      assert h[..|h| - 1] + [h[|h| - 1]] == h;
    }
  }

  /** Every published row states what some process saw: a row with a dispatch, the outcome that process observed after
      sending this attempt; a row without one, that a collection missed the parent of the case. */
  lemma PublishedSaysWhatWasSeen(h: seq<Label>, q: Path) returns (i: nat)
    requires q.Published? && q in Run(START, h).disk.paths
    ensures var d := Run(START, h).disk;
            && Readable(d, q) && d.files[d.paths[q]].doc.Observation?
            && i < |h| && h[i].Tick? && h[i].pid < |At(h, i).procs|
            && Sees(At(h, i).procs[h[i].pid], h[i].env, d.files[d.paths[q]].doc.row)
  {
    InvariantAlways(h);
    RecordedAlways(h);
    assert PathOk(Run(START, h).disk, Run(START, h).sent, q);
    hide Sees;
    i :| SeenAt(h, i, Run(START, h).disk.files[Run(START, h).disk.paths[q]].doc.row);
  }

  // ---------- which cases a run has behind it ----------

  /** The row of the case is published, and for a canary it says that it passed. */
  predicate Settled(d: Disk, kind: Kind, id: string) {
    var q := Published(NameOf(kind, id), 1);
    Readable(d, q) && (kind.Canary? ==> d.files[d.paths[q]].doc.Observation? && d.files[d.paths[q]].doc.row.passed)
  }

  ghost predicate LeftBehind(d: Disk, kind: Kind, todo: seq<string>)
    requires !kind.Collect?
  {
    forall i :: 0 <= i < |kind.cases| ==> kind.cases[i] in todo || Settled(d, kind, kind.cases[i])
  }

  ghost predicate ListOk(d: Disk, p: Process) {
    !p.kind.Collect? ==>
      && LeftBehind(d, p.kind, p.todo)
      && (p.phase.Preparing? ==>
            p.kind.Bm25? && p.todo == p.kind.cases
            && forall i :: 0 <= i < |p.todo| && i < p.phase.next ==> p.todo[i] in p.phase.unsaved || Settled(d, p.kind, p.todo[i]))
      && (Working(p.phase) ==> p.todo != [] && p.phase.caseId == NameOf(p.kind, p.todo[0]) && p.phase.attempt == 1)
  }

  lemma SettledStays(s: State, l: Label, kind: Kind, id: string)
    requires Invariant(s) && Settled(s.disk, kind, id)
    ensures Settled(Step(s, l).disk, kind, id)
  {
    hide Step, Invariant;
    PathsKept(s, l, Published(NameOf(kind, id), 1));
  }

  lemma ListStays(s: State, l: Label, p: Process)
    requires Invariant(s) && ListOk(s.disk, p)
    ensures ListOk(Step(s, l).disk, p)
  {
    forall kind: Kind, id | Settled(s.disk, kind, id) ensures Settled(Step(s, l).disk, kind, id) { SettledStays(s, l, kind, id); }
    hide Step, Invariant, Settled;
  }

  lemma PublishedIsSettled(s: State, id: string)
    requires Invariant(s) && Published(BatchCase(id), 1) in s.disk.paths
    ensures Settled(s.disk, Bm25([]), id) && forall cases :: Settled(s.disk, Bm25(cases), id)
  {
    assert PathOk(s.disk, s.sent, Published(BatchCase(id), 1));
  }

  lemma PreparingListStep(s: State, pid: nat, e: Env)
    requires Invariant(s) && pid < |s.procs| && ListOk(s.disk, s.procs[pid]) && s.procs[pid].phase.Preparing?
    ensures var t := Step(s, Tick(pid, e)); ListOk(t.disk, t.procs[pid])
  {
    hide Settled, Decide, WriterStep;
    var p := s.procs[pid];
    var next := p.phase.next;
    if next < |p.todo| && Published(BatchCase(p.todo[next]), 1) in s.disk.paths { PublishedIsSettled(s, p.todo[next]); }
    hide Invariant;
  }

  lemma WorkingListStep(s: State, pid: nat, e: Env)
    requires Invariant(s) && pid < |s.procs| && ListOk(s.disk, s.procs[pid]) && !s.procs[pid].kind.Collect? && Working(s.procs[pid].phase)
    ensures var t := Step(s, Tick(pid, e)); ListOk(t.disk, t.procs[pid])
  {
    hide Settled, Decide, WriterStep, Prepare, WithRow, Observed;
    var p, t := s.procs[pid], Step(s, Tick(pid, e));
    ListStays(s, Tick(pid, e), p);
    if p.phase.Publishing? && t.procs[pid].phase.Deciding? { SettlesItsCase(s, pid, e); }
    hide Invariant;
  }

  lemma OwnListStep(s: State, pid: nat, e: Env)
    requires Invariant(s) && pid < |s.procs| && ListOk(s.disk, s.procs[pid])
    ensures var t := Step(s, Tick(pid, e)); ListOk(t.disk, t.procs[pid])
  {
    var p := s.procs[pid];
    if p.kind.Collect? {
      StepIsOwn(s, pid, e);
    } else if p.phase.Preparing? {
      PreparingListStep(s, pid, e);
    } else if Working(p.phase) {
      WorkingListStep(s, pid, e);
    } else {
      hide Settled, Invariant, WriterStep, FirstCanaryPassed;
    }
  }

  lemma SettlesItsCase(s: State, pid: nat, e: Env)
    requires Invariant(s) && pid < |s.procs| && ListOk(s.disk, s.procs[pid]) && !s.procs[pid].kind.Collect?
    requires s.procs[pid].phase.Publishing? && Step(s, Tick(pid, e)).procs[pid].phase.Deciding?
    ensures s.procs[pid].todo != [] && Settled(Step(s, Tick(pid, e)).disk, s.procs[pid].kind, s.procs[pid].todo[0])
  {
    OwnRow(s, pid, e);
  }

  lemma {:induction false} ListsAlways(h: seq<Label>)
    ensures forall pid :: 0 <= pid < |Run(START, h).procs| ==> ListOk(Run(START, h).disk, Run(START, h).procs[pid])
    decreases |h|
  {
    if h != [] {
      var g, l := h[..|h| - 1], h[|h| - 1];
      ListsAlways(g);
      InvariantAlways(g);
      var s, t := Run(START, g), Run(START, h);
      forall pid | 0 <= pid < |t.procs| ensures ListOk(t.disk, t.procs[pid]) {
        if pid < |s.procs| { ListStays(s, l, s.procs[pid]); }
        if l.Tick? && l.pid == pid && pid < |s.procs| { OwnListStep(s, pid, l.env); }
        hide Settled, Advance, Invariant;
      }
    }
  }

  /** In every reachable state a BM25 or canary run has left a case behind only if its complete row is published, and a
      canary only if it passed; so a failed canary ends the run, and so does a row that could not be published. */
  lemma LeavesOnlyPublished(h: seq<Label>, pid: nat, id: string)
    requires pid < |Run(START, h).procs| && !Run(START, h).procs[pid].kind.Collect?
    requires id in Run(START, h).procs[pid].kind.cases && id !in Run(START, h).procs[pid].todo
    ensures Settled(Run(START, h).disk, Run(START, h).procs[pid].kind, id)
  {
    ListsAlways(h);
  }

  // ---------- temporary files ----------

  function HeldBy(w: Writer): set<nat> {
    if w.Checking? then {} else {w.inode}
  }

  /** The file that the process is in the middle of writing. */
  function Held(phase: Phase): set<nat> {
    if phase.Reserving? || phase.Publishing? then HeldBy(phase.writer) else {}
  }

  /** What the process is writing is a temporary file of its own. */
  ghost predicate HeldOk(d: Disk, pid: nat, phase: Phase) {
    forall i :: i in Held(phase) ==> i in d.temps && i < |d.files| && d.files[i].author == pid
  }

  /** The author of the temporary file is writing it, or has stopped. */
  predicate InUse(s: State, inode: nat) {
    inode < |s.disk.files| && s.disk.files[inode].author < |s.procs|
    && var phase := s.procs[s.disk.files[inode].author].phase;
    phase.Stopped? || inode in Held(phase)
  }

  ghost predicate TempsOk(s: State) {
    && (forall pid :: 0 <= pid < |s.procs| ==> HeldOk(s.disk, pid, s.procs[pid].phase))
    && (forall i :: i in s.disk.temps ==> InUse(s, i))
  }

  /** A step of `pid` exchanges the temporary file it held for the one it holds afterwards, or it stops. */
  ghost predicate Moves(d: Disk, d': Disk, pid: nat, phase: Phase, phase': Phase) {
    && |d.files| <= |d'.files| && (forall i :: 0 <= i < |d.files| ==> d'.files[i].author == d.files[i].author)
    && (forall i :: i in Held(phase') ==> i in Held(phase) || (|d.files| == i < |d'.files| && d'.files[i].author == pid))
    && (phase'.Stopped? || !phase.Stopped?)
    && (d'.temps == d.temps - Held(phase) + Held(phase') || (d'.temps == d.temps && phase'.Stopped?))
  }

  lemma WriterExchanges(d: Disk, pid: nat, w: Writer, e: Env)
    requires HeldBy(w) <= d.temps
    ensures var (d', r) := WriterStep(d, pid, w, e);
            && |d.files| <= |d'.files| && (forall i :: 0 <= i < |d.files| ==> d'.files[i].author == d.files[i].author)
            && (r.Continue? ==>
                  && d'.temps == d.temps - HeldBy(w) + HeldBy(r.writer)
                  && (HeldBy(r.writer) == HeldBy(w)
                      || (HeldBy(r.writer) == {|d.files|} && |d.files| < |d'.files| && d'.files[|d.files|].author == pid)))
            && (r.Finished? ==> d'.temps == d.temps - HeldBy(w) || (d'.temps == d.temps && !r.won))
  {
  }

  lemma StepMoves(d: Disk, pid: nat, p: Process, e: Env)
    requires Held(p.phase) <= d.temps
    ensures Moves(d, Advance(d, pid, p, e).0, pid, p.phase, Advance(d, pid, p, e).1.phase)
  {
    if p.phase.Reserving? || p.phase.Publishing? {
      WriterExchanges(d, pid, p.phase.writer, e);
      hide WriterStep, WithRow, HeldBy;
    } else {
      hide FirstCanaryPassed, Readable, IsLatest, WithRow, Observed, UnsentRow, MissesParent;
    }
  }

  lemma TempsTick(s: State, pid: nat, e: Env)
    requires TempsOk(s) && pid < |s.procs|
    ensures TempsOk(Step(s, Tick(pid, e)))
  {
    var t := Step(s, Tick(pid, e));
    var d, d', phase, phase' := s.disk, t.disk, s.procs[pid].phase, t.procs[pid].phase;
    assert HeldOk(d, pid, phase);
    StepMoves(d, pid, s.procs[pid], e);
    StoppedHoldsNothing(phase');
    hide Advance, Held;
    assert forall q :: 0 <= q < |s.procs| && q != pid ==> t.procs[q] == s.procs[q];
    forall q | 0 <= q < |t.procs| ensures HeldOk(d', q, t.procs[q].phase) { assert HeldOk(d, q, s.procs[q].phase); }
    forall i | i in d'.temps ensures InUse(t, i) {
      if i in d.temps {
        assert InUse(s, i);
        if i in Held(phase) && !phase'.Stopped? { assert i in Held(phase'); }
      } else {
        assert i in Held(phase');
      }
    }
  }

  lemma TempsStep(s: State, l: Label)
    requires TempsOk(s)
    ensures TempsOk(Step(s, l))
  {
    var t := Step(s, l);
    if l.Tick? && l.pid < |s.procs| {
      TempsTick(s, l.pid, l.env);
    } else if t != s {
      hide Accepts, Held;
      forall pid | 0 <= pid < |t.procs| ensures HeldOk(t.disk, pid, t.procs[pid].phase) {
        StoppedHoldsNothing(t.procs[pid].phase);
        if pid < |s.procs| { assert HeldOk(s.disk, pid, s.procs[pid].phase); }
      }
      forall i | i in t.disk.temps ensures InUse(t, i) { assert InUse(s, i); }
    }
  }

  lemma StoppedHoldsNothing(phase: Phase)
    ensures phase.Stopped? || phase.Preparing? || phase.Deciding? ==> Held(phase) == {}
  {
  }

  /** In every reachable state a temporary file is one its process is just writing, or one of a process that failed or
      crashed: a process that goes on leaves none behind. */
  lemma {:induction false} TemporariesAreInUse(h: seq<Label>)
    ensures TempsOk(Run(START, h))
    decreases |h|
  {
    if h != [] {
      hide Step, TempsOk;
      TemporariesAreInUse(h[..|h| - 1]);
      TempsStep(Run(START, h[..|h| - 1]), h[|h| - 1]);
    } else {
      NothingWritten();
    }
  }

  lemma NothingWritten()
    ensures TempsOk(START)
  {
  }

  /** A process that finds its name taken stops before it writes anything. */
  lemma TakenNameStops(s: State, pid: nat, e: Env)
    requires pid < |s.procs| && (s.procs[pid].phase.Reserving? || s.procs[pid].phase.Publishing?)
    requires s.procs[pid].phase.writer.Checking? && s.procs[pid].phase.writer.path in s.disk.paths
    ensures var t := Step(s, Tick(pid, e)); t.disk == s.disk && t.sent == s.sent && t.procs[pid].phase.Stopped?
  {
  }
}
