/** Reserve, send, publish: the dispatch protocol of the evaluation runners.

    Any number of processes share one directory. Every file is published by the same steps: look whether
    the name exists, write a private temporary file, flush it, hard-link it to its final name, unlink the
    temporary name. The link is exclusive and is the only strong primitive. Each `Label` is one step of one
    process; a process may also fail or crash between any two steps, and reruns may start at any time. What
    a process learns from outside the directory is in the step's `Env`. */
module ReportDispatch {
  import opened Wrappers

  // ---------- the directory ----------

  /** Batch runners and canaries name their files differently, so their cases never share a file. */
  datatype CaseName = BatchCase(id: string) | CanaryCase(id: string)

  datatype Path =
    | Reserved(caseId: CaseName, attempt: nat)   // dispatch-<case>-attempt-<n>.json; <case>.reserved.json
    | Published(caseId: CaseName, attempt: nat)  // case-<case>-attempt-<n>.json; <case>.transport.json

  datatype Outcome =
    | Answered     // no failure code, and a turn that a follow-up can continue
    | Retryable    // the failure code is QUOTA_PAUSED or FREE_PREFLIGHT_EXPIRED
    | Replaceable  // a captured answer with the code CASE_FAILED_NO_RETRY; a reviewed selection may replace it
    | Other

  /** `passed`: HTTP 200, success, and no reason to stop. */
  datatype Row = Row(caseId: CaseName, attempt: nat, dispatched: bool, outcome: Outcome, passed: bool)

  datatype Document = Note(caseId: CaseName, attempt: nat) | Observation(row: Row)

  /** A file holds the first `written` of the `size` bytes of its author's document. */
  datatype File = File(author: nat, doc: Document, size: nat, written: nat)

  datatype Disk = Disk(files: seq<File>, paths: map<Path, nat>, temps: set<nat>)

  predicate Complete(f: File) { f.written == f.size }

  predicate Readable(d: Disk, p: Path) {
    p in d.paths && d.paths[p] < |d.files| && Complete(d.files[d.paths[p]])
  }

  // ---------- processes ----------

  datatype Writer =
    | Checking(path: Path, doc: Document)
    | Writing(path: Path, inode: nat)
    | Linking(path: Path, inode: nat)
    | Cleaning(path: Path, inode: nat, won: bool)

  /** `parents` gives the case that a follow-up continues. */
  datatype Dataset = Dataset(cases: seq<string>, parents: map<string, string>)

  /** `selected`: the case whose captured row a reviewed selection replaces by a good one. */
  datatype Kind =
    | Bm25(cases: seq<string>)
    | Collect(resumeQuota: bool, data: Dataset, selected: Option<string>)
    | Canary(cases: seq<string>)

  datatype Phase =
    | Preparing(next: nat, unsaved: seq<string>)
    | Deciding
    | Reserving(caseId: CaseName, attempt: nat, writer: Writer)
    | Ready(caseId: CaseName, attempt: nat)
    | Sent(caseId: CaseName, attempt: nat)
    | Publishing(caseId: CaseName, attempt: nat, row: Row, writer: Writer)
    | Stopped

  /** `good`: the cases for which a collection has read or published a row that a follow-up can continue. */
  datatype Process = Process(kind: Kind, todo: seq<string>, good: set<string>, phase: Phase)

  datatype Dispatch = Dispatch(caseId: CaseName, attempt: nat, pid: nat)

  datatype State = State(disk: Disk, procs: seq<Process>, sent: seq<Dispatch>)

  datatype Env = Env(latest: nat, identityOk: bool, paused: bool, fails: bool, size: nat, chunk: nat, outcome: Outcome, passed: bool)

  datatype Label = Spawn(kind: Kind) | Tick(pid: nat, env: Env) | Crash(pid: nat)

  const FIRST_CANARY := CanaryCase("p1-vi-attack-1")

  // ---------- write_report_atomic, one step at a time ----------

  datatype Progress = Continue(writer: Writer) | Finished(won: bool)

  function WriterStep(d: Disk, pid: nat, w: Writer, e: Env): (Disk, Progress) {
    match w
    case Checking(path, doc) =>
      if path in d.paths || e.fails then (d, Finished(false))
      else (Disk(d.files + [File(pid, doc, e.size + 1, 0)], d.paths, d.temps + {|d.files|}), Continue(Writing(path, |d.files|)))
    case Writing(path, inode) =>
      if e.fails || inode >= |d.files| then (d, Continue(Cleaning(path, inode, false)))
      else
        var f := d.files[inode];
        var written := if f.written + e.chunk + 1 < f.size then f.written + e.chunk + 1 else f.size;
        (d.(files := d.files[inode := f.(written := written)]),
         Continue(if written == f.size then Linking(path, inode) else w))
    case Linking(path, inode) =>
      if e.fails || path in d.paths then (d, Continue(Cleaning(path, inode, false)))
      else (d.(paths := d.paths[path := inode]), Continue(Cleaning(path, inode, true)))
    case Cleaning(_, inode, won) =>
      if e.fails then (d, Finished(false)) else (d.(temps := d.temps - {inode}), Finished(won))
  }

  // ---------- the three runners ----------

  /** `n` is the attempt of the newest published row of the case, 0 when there is none. */
  predicate IsLatest(d: Disk, caseId: CaseName, n: nat) {
    && (n > 0 ==> Published(caseId, n) in d.paths)
    && (forall p :: p in d.paths && p.Published? && p.caseId == caseId ==> p.attempt <= n)
  }

  predicate FirstCanaryPassed(d: Disk) {
    Readable(d, Published(FIRST_CANARY, 1))
    && var doc := d.files[d.paths[Published(FIRST_CANARY, 1)]].doc;
    doc.Observation? && doc.row.passed
  }

  function NameOf(kind: Kind, id: string): CaseName {
    if kind.Canary? then CanaryCase(id) else BatchCase(id)
  }

  function Reserve(caseId: CaseName, attempt: nat): Phase {
    Reserving(caseId, attempt, Checking(Reserved(caseId, attempt), Note(caseId, attempt)))
  }

  function Publish(row: Row): Phase {
    Publishing(row.caseId, row.attempt, row, Checking(Published(row.caseId, row.attempt), Observation(row)))
  }

  /** A complete row of the attempt with that outcome is published. */
  predicate RowIs(d: Disk, c: CaseName, n: nat, outcome: Outcome) {
    Readable(d, Published(c, n))
    && var doc := d.files[d.paths[Published(c, n)]].doc;
    doc.Observation? && doc.row.outcome == outcome
  }

  /** The newest row of the case is one that a reviewed selection may replace. */
  predicate Selectable(d: Disk, id: string) {
    exists p :: p in d.paths && p.Published? && p.caseId == BatchCase(id)
                && IsLatest(d, BatchCase(id), p.attempt) && RowIs(d, BatchCase(id), p.attempt, Replaceable)
  }

  /** A selection is checked before anything else is done. */
  predicate Accepts(d: Disk, kind: Kind) {
    kind.Collect? && kind.selected.Some? ==> kind.selected.value in kind.data.cases && Selectable(d, kind.selected.value)
  }

  function WithRow(good: set<string>, id: string, row: Row): set<string> {
    if row.outcome.Answered? then good + {id} else good - {id}
  }

  /** The case follows up on a case for which this run holds no good row. */
  predicate MissesParent(p: Process, id: string) {
    p.kind.Collect? && id in p.kind.data.parents && p.kind.data.parents[id] !in p.good
  }

  /** A row without a turn is no row to continue from. */
  function Observed(kind: Kind, outcome: Outcome): Outcome {
    if kind.Collect? || outcome.Retryable? then outcome else Other
  }

  /** The row of a case whose parent is missing; a pause that begins meanwhile gives it its failure code. */
  function UnsentRow(c: CaseName, attempt: nat, e: Env): Row {
    Row(c, attempt, false, if e.outcome.Retryable? then Retryable else Other, false)
  }

  function CollectFrom(p: Process, c: CaseName, attempt: nat, e: Env): Process {
    if e.paused then p.(phase := Stopped)
    else if MissesParent(p, c.id) then p.(phase := Publish(UnsentRow(c, attempt, e)))
    else p.(phase := Reserve(c, attempt))
  }

  function Decide(d: Disk, p: Process, e: Env): Process {
    if p.todo == [] then p.(phase := Stopped)
    else
      var c := NameOf(p.kind, p.todo[0]);
      match p.kind
      case Bm25(_) => p.(phase := Reserve(c, 1))
      case Canary(_) =>
        if c == FIRST_CANARY || (FirstCanaryPassed(d) && e.identityOk) then p.(phase := Reserve(c, 1)) else p.(phase := Stopped)
      case Collect(resume, _, selected) =>
        if !IsLatest(d, c, e.latest) then p
        else if e.latest > 0 && (!Readable(d, Published(c, e.latest)) || !e.identityOk) then p.(phase := Stopped)
        else if selected == Some(c.id) then p.(todo := p.todo[1..], good := p.good + {c.id})
        else if e.latest == 0 then CollectFrom(p, c, 1, e)
        else
          var doc := d.files[d.paths[Published(c, e.latest)]].doc;
          if resume && doc.Observation? && doc.row.outcome.Retryable? then CollectFrom(p, c, e.latest + 1, e)
          else p.(todo := p.todo[1..], good := if doc.Observation? then WithRow(p.good, c.id, doc.row) else p.good - {c.id})
  }

  function Prepare(d: Disk, p: Process, next: nat, unsaved: seq<string>, e: Env): Process {
    if next >= |p.todo| then p.(todo := unsaved, phase := Deciding)
    else
      var c := BatchCase(p.todo[next]);
      if Published(c, 1) in d.paths then p.(phase := if e.identityOk then Preparing(next + 1, unsaved) else Stopped)
      else if Reserved(c, 1) in d.paths then p.(phase := Stopped)
      else p.(phase := Preparing(next + 1, unsaved + [p.todo[next]]))
  }

  /** One step of process `pid`: the new disk, the new process, and the dispatch it makes, if any. */
  function Advance(d: Disk, pid: nat, p: Process, e: Env): (Disk, Process, seq<Dispatch>) {
    match p.phase
    case Preparing(next, unsaved) => (d, Prepare(d, p, next, unsaved, e), [])
    case Deciding => (d, Decide(d, p, e), [])
    case Reserving(c, a, w) =>
      var (d', r) := WriterStep(d, pid, w, e);
      (d', p.(phase := if r.Continue? then Reserving(c, a, r.writer) else if r.won then Ready(c, a) else Stopped), [])
    case Ready(c, a) => (d, p.(phase := Sent(c, a)), [Dispatch(c, a, pid)])
    case Sent(c, a) =>
      (d, p.(phase := if e.fails then Stopped else Publish(Row(c, a, true, Observed(p.kind, e.outcome), e.passed))), [])
    case Publishing(c, a, row, w) =>
      var (d', r) := WriterStep(d, pid, w, e);
      (d', if r.Continue? then p.(phase := Publishing(c, a, row, r.writer))
           else if !r.won || (p.kind.Canary? && !row.passed) || p.todo == [] then p.(phase := Stopped)
           else p.(todo := p.todo[1..], good := WithRow(p.good, p.todo[0], row), phase := Deciding), [])
    case Stopped => (d, p, [])
  }

  function Step(s: State, l: Label): State {
    match l
    case Spawn(kind) =>
      var phase := if kind.Bm25? then Preparing(0, []) else if Accepts(s.disk, kind) then Deciding else Stopped;
      s.(procs := s.procs + [Process(kind, if kind.Collect? then kind.data.cases else kind.cases, {}, phase)])
    case Crash(pid) => if pid < |s.procs| then s.(procs := s.procs[pid := s.procs[pid].(phase := Stopped)]) else s
    case Tick(pid, e) =>
      if pid >= |s.procs| then s
      else
        var (d, p, out) := Advance(s.disk, pid, s.procs[pid], e);
        State(d, s.procs[pid := p], s.sent + out)
  }

  const START := State(Disk([], map[], {}), [], [])

  function Run(s: State, h: seq<Label>): State
    decreases |h|
  {
    if h == [] then s else Step(Run(s, h[..|h| - 1]), h[|h| - 1])
  }

  // ---------- the invariant ----------

  /** The reservation of the attempt is on disk and `pid` wrote it. */
  predicate Owns(d: Disk, pid: nat, c: CaseName, a: nat) {
    Readable(d, Reserved(c, a)) && d.files[d.paths[Reserved(c, a)]].author == pid
  }

  predicate NotSent(sent: seq<Dispatch>, c: CaseName, a: nat) {
    forall i :: 0 <= i < |sent| ==> !(sent[i].caseId == c && sent[i].attempt == a)
  }

  predicate Private(d: Disk, pid: nat, inode: nat) {
    inode < |d.files| && d.files[inode].author == pid && inode !in d.paths.Values
  }

  predicate WriterOk(d: Disk, pid: nat, w: Writer, path: Path, doc: Document) {
    w.path == path
    && match w
       case Checking(_, doc') => doc' == doc
       case Writing(_, inode) => Private(d, pid, inode) && d.files[inode].doc == doc
       case Linking(_, inode) => Private(d, pid, inode) && d.files[inode].doc == doc && Complete(d.files[inode])
       case Cleaning(_, inode, won) =>
         won ==> Readable(d, path) && d.files[d.paths[path]].author == pid && d.files[d.paths[path]].doc == doc
  }

  /** Later attempts are made in batches only, each on a retryable row of the attempt before. */
  predicate AttemptOk(d: Disk, c: CaseName, a: nat) {
    a == 1 || (a > 1 && c.BatchCase? && RowIs(d, c, a - 1, Retryable))
  }

  predicate GateOk(d: Disk, kind: Kind, c: CaseName) {
    kind.Canary? ==> c == FIRST_CANARY || FirstCanaryPassed(d)
  }

  predicate Working(phase: Phase) {
    phase.Reserving? || phase.Ready? || phase.Sent? || phase.Publishing?
  }

  predicate Named(kind: Kind, phase: Phase) {
    Working(phase) ==> (kind.Canary? <==> phase.caseId.CanaryCase?)
  }

  predicate ProcessOk(d: Disk, sent: seq<Dispatch>, pid: nat, p: Process) {
    && Named(p.kind, p.phase)
    && match p.phase
    case Reserving(c, a, w) =>
      && AttemptOk(d, c, a) && GateOk(d, p.kind, c) && WriterOk(d, pid, w, Reserved(c, a), Note(c, a))
      && (w.Cleaning? && w.won ==> NotSent(sent, c, a))
    case Ready(c, a) => AttemptOk(d, c, a) && GateOk(d, p.kind, c) && Owns(d, pid, c, a) && NotSent(sent, c, a)
    case Sent(c, a) => Dispatch(c, a, pid) in sent && AttemptOk(d, c, a)
    case Publishing(c, a, row, w) =>
      && row.caseId == c && row.attempt == a && AttemptOk(d, c, a)
      && (row.dispatched ==> Dispatch(c, a, pid) in sent)
      && (!row.dispatched ==> p.kind.Collect? && c.id in p.kind.data.parents)
      && WriterOk(d, pid, w, Published(c, a), Observation(row))
    case _ => true
  }

  predicate PathOk(d: Disk, sent: seq<Dispatch>, p: Path) {
    && Readable(d, p) && AttemptOk(d, p.caseId, p.attempt)
    && var f := d.files[d.paths[p]];
    && (p.Reserved? ==> f.doc == Note(p.caseId, p.attempt))
    && (p.Published? ==> f.doc.Observation? && f.doc.row.caseId == p.caseId && f.doc.row.attempt == p.attempt
                         && (f.doc.row.dispatched ==> Dispatch(p.caseId, p.attempt, f.author) in sent))
  }

  ghost predicate Invariant(s: State) {
    && (forall p :: p in s.disk.paths ==> PathOk(s.disk, s.sent, p))
    && (forall pid :: 0 <= pid < |s.procs| ==> ProcessOk(s.disk, s.sent, pid, s.procs[pid]))
    && (forall i :: 0 <= i < |s.sent| ==>
          && Owns(s.disk, s.sent[i].pid, s.sent[i].caseId, s.sent[i].attempt)
          && s.sent[i].pid < |s.procs| && GateOk(s.disk, s.procs[s.sent[i].pid].kind, s.sent[i].caseId))
    && (forall i :: 0 <= i < |s.disk.files| ==> s.disk.files[i].author < |s.procs|)
    && (forall i, j :: 0 <= i < j < |s.sent| ==>
          !(s.sent[i].caseId == s.sent[j].caseId && s.sent[i].attempt == s.sent[j].attempt))
  }

  /** What a step of `pid` may do to the disk: published files stay, other processes' files stay. */
  ghost predicate Grows(d: Disk, d': Disk, pid: nat) {
    && |d.files| <= |d'.files|
    && (forall i :: 0 <= i < |d.files| ==> d'.files[i].author == d.files[i].author
                                           && (d.files[i].author != pid ==> d'.files[i] == d.files[i]))
    && (forall i :: |d.files| <= i < |d'.files| ==> d'.files[i].author == pid)
    && (forall p :: p in d.paths ==> p in d'.paths && d'.paths[p] == d.paths[p]
                                     && (d.paths[p] < |d.files| ==> d'.files[d.paths[p]] == d.files[d.paths[p]]))
    && (forall p :: p in d'.paths && p !in d.paths ==> d'.paths[p] < |d'.files| && d'.files[d'.paths[p]].author == pid)
  }

  lemma WriterGrows(d: Disk, pid: nat, w: Writer, path: Path, doc: Document, e: Env)
    requires WriterOk(d, pid, w, path, doc)
    requires forall p :: p in d.paths ==> Readable(d, p)
    ensures var (d', r) := WriterStep(d, pid, w, e);
            && Grows(d, d', pid)
            && (r.Continue? ==> WriterOk(d', pid, r.writer, path, doc))
            && (r.Finished? && r.won ==> w.Cleaning? && w.won && d'.paths == d.paths && d'.files == d.files)
            && (forall p :: p in d'.paths && p !in d.paths ==> p == path && w.Linking? && r == Continue(Cleaning(path, w.inode, true)))
            && (forall p :: p in d'.paths && p !in d.paths ==> Readable(d', p) && d'.files[d'.paths[p]].doc == doc)
            && (r.Continue? && r.writer.Cleaning? && r.writer.won ==> path !in d.paths)
  {
  }

  lemma ReadableKept(d: Disk, d': Disk, pid: nat, p: Path)
    requires Grows(d, d', pid) && Readable(d, p)
    ensures Readable(d', p) && d'.paths[p] == d.paths[p] && d'.files[d'.paths[p]] == d.files[d.paths[p]]
  {
  }

  lemma OtherProcessKept(d: Disk, d': Disk, sent: seq<Dispatch>, out: seq<Dispatch>, pid: nat, q: nat, p: Process)
    requires Grows(d, d', pid) && q != pid && ProcessOk(d, sent, q, p)
    requires forall i :: 0 <= i < |out| ==> Owns(d, pid, out[i].caseId, out[i].attempt)
    ensures ProcessOk(d', sent + out, q, p)
  {
    if p.phase.Reserving? || p.phase.Ready? || p.phase.Sent? || p.phase.Publishing? {
      var c, a := p.phase.caseId, p.phase.attempt;
      AttemptKept(d, d', pid, p.kind, c, a);
      if Readable(d, Reserved(c, a)) { ReadableKept(d, d', pid, Reserved(c, a)); }
      if Readable(d, Published(c, a)) { ReadableKept(d, d', pid, Published(c, a)); }
      forall inode | Private(d, q, inode) ensures Private(d', q, inode) { PrivateKept(d, d', pid, q, inode); }
    }
  }

  lemma PrivateKept(d: Disk, d': Disk, pid: nat, q: nat, inode: nat)
    requires Grows(d, d', pid) && q != pid && Private(d, q, inode)
    ensures Private(d', q, inode) && d'.files[inode] == d.files[inode]
  {
    forall p | p in d'.paths ensures d'.paths[p] != inode {
      assert p in d.paths ==> d.paths[p] in d.paths.Values;
    }
  }

  lemma AttemptKept(d: Disk, d': Disk, pid: nat, kind: Kind, c: CaseName, a: nat)
    requires Grows(d, d', pid)
    ensures AttemptOk(d, c, a) ==> AttemptOk(d', c, a)
    ensures GateOk(d, kind, c) ==> GateOk(d', kind, c)
  {
    if Readable(d, Published(FIRST_CANARY, 1)) { ReadableKept(d, d', pid, Published(FIRST_CANARY, 1)); }
  }

  /** A step of `pid` leaves its own process in order, and what it sends it owns and nobody has sent. */
  ghost predicate OwnStep(s: State, pid: nat, d: Disk, p: Process, out: seq<Dispatch>)
    requires pid < |s.procs|
  {
    && Grows(s.disk, d, pid) && p.kind == s.procs[pid].kind && ProcessOk(d, s.sent + out, pid, p) && |out| <= 1
    && (forall x :: x in out ==>
          x.pid == pid && Owns(s.disk, pid, x.caseId, x.attempt) && NotSent(s.sent, x.caseId, x.attempt)
          && GateOk(s.disk, p.kind, x.caseId))
    && (forall q :: q in d.paths && q !in s.disk.paths ==> PathOk(d, s.sent + out, q))
  }

  lemma ReservingStepOk(s: State, pid: nat, e: Env)
    requires Invariant(s) && pid < |s.procs| && s.procs[pid].phase.Reserving?
    ensures var (d, p, out) := Advance(s.disk, pid, s.procs[pid], e); OwnStep(s, pid, d, p, out)
  {
    var p, d := s.procs[pid], s.disk;
    var (c, a, w) := (p.phase.caseId, p.phase.attempt, p.phase.writer);
    assert ProcessOk(d, s.sent, pid, p);
    forall q | q in d.paths ensures Readable(d, q) { assert PathOk(d, s.sent, q); }
    WriterGrows(d, pid, w, Reserved(c, a), Note(c, a), e);
    if Reserved(c, a) !in d.paths { UnownedUnsent(s, c, a); }
    hide Invariant, WriterStep, Grows, AttemptOk, GateOk, FirstCanaryPassed;
    var (d', r) := WriterStep(d, pid, w, e);
    AttemptKept(d, d', pid, p.kind, c, a);
    assert s.sent + [] == s.sent;
    assert r == Finished(true) ==> Owns(d', pid, c, a);
    assert Advance(d, pid, p, e) ==
      (d', p.(phase := if r.Continue? then Reserving(c, a, r.writer) else if r.won then Ready(c, a) else Stopped), []);
    hide Advance, Readable;
  }

  lemma PublishingStepOk(s: State, pid: nat, e: Env)
    requires Invariant(s) && pid < |s.procs| && s.procs[pid].phase.Publishing?
    ensures var (d, p, out) := Advance(s.disk, pid, s.procs[pid], e); OwnStep(s, pid, d, p, out)
  {
    var p, d := s.procs[pid], s.disk;
    var (c, a, row, w) := (p.phase.caseId, p.phase.attempt, p.phase.row, p.phase.writer);
    assert ProcessOk(d, s.sent, pid, p);
    forall q | q in d.paths ensures Readable(d, q) { assert PathOk(d, s.sent, q); }
    WriterGrows(d, pid, w, Published(c, a), Observation(row), e);
    hide Invariant, WriterStep, Grows;
    var (d', r) := WriterStep(d, pid, w, e);
    AttemptKept(d, d', pid, p.kind, c, a);
    assert s.sent + [] == s.sent;
    var p' := Advance(d, pid, p, e).1;
    assert ProcessOk(d', s.sent, pid, p') by { hide GateOk, AttemptOk, FirstCanaryPassed; }
    forall q | q in d'.paths && q !in d.paths ensures PathOk(d', s.sent, q) {
      hide ProcessOk, GateOk, FirstCanaryPassed;
    }
  }

  lemma OtherStepOk(s: State, pid: nat, e: Env)
    requires Invariant(s) && pid < |s.procs| && !s.procs[pid].phase.Reserving? && !s.procs[pid].phase.Publishing?
    ensures var (d, p, out) := Advance(s.disk, pid, s.procs[pid], e); OwnStep(s, pid, d, p, out)
  {
    var p := s.procs[pid];
    assert ProcessOk(s.disk, s.sent, pid, p);
    assert s.sent + [] == s.sent;
    match p.phase
    case Ready(c, a) => assert (s.sent + [Dispatch(c, a, pid)])[|s.sent|] == Dispatch(c, a, pid);
    case Deciding => DecideOk(s.disk, s.sent, pid, p, e);
    case _ =>
  }

  lemma DecideOk(d: Disk, sent: seq<Dispatch>, pid: nat, p: Process, e: Env)
    requires p.phase.Deciding?
    ensures Decide(d, p, e).kind == p.kind && ProcessOk(d, sent, pid, Decide(d, p, e))
  {
  }

  /** An attempt whose reservation is not on disk has never been sent. */
  lemma UnownedUnsent(s: State, c: CaseName, a: nat)
    requires Invariant(s) && Reserved(c, a) !in s.disk.paths
    ensures NotSent(s.sent, c, a)
  {
    forall i | 0 <= i < |s.sent| ensures !(s.sent[i].caseId == c && s.sent[i].attempt == a) {
      assert Owns(s.disk, s.sent[i].pid, s.sent[i].caseId, s.sent[i].attempt);
    }
  }

  lemma PathKept(d: Disk, d': Disk, sent: seq<Dispatch>, out: seq<Dispatch>, pid: nat, p: Path)
    requires Grows(d, d', pid) && PathOk(d, sent, p)
    ensures PathOk(d', sent + out, p)
  {
    ReadableKept(d, d', pid, p);
    AttemptKept(d, d', pid, Bm25([]), p.caseId, p.attempt);
  }

  lemma StepIsOwn(s: State, pid: nat, e: Env)
    requires Invariant(s) && pid < |s.procs|
    ensures var (d, p, out) := Advance(s.disk, pid, s.procs[pid], e); OwnStep(s, pid, d, p, out)
  {
    hide Advance, OwnStep, Invariant;
    match s.procs[pid].phase
    case Reserving(_, _, _) => ReservingStepOk(s, pid, e);
    case Publishing(_, _, _, _) => PublishingStepOk(s, pid, e);
    case _ => OtherStepOk(s, pid, e);
  }

  lemma TickKeepsInvariant(s: State, pid: nat, e: Env)
    requires Invariant(s) && pid < |s.procs|
    ensures Invariant(Step(s, Tick(pid, e)))
  {
    StepIsOwn(s, pid, e);
    var (d, p, out) := Advance(s.disk, pid, s.procs[pid], e);
    var s' := Step(s, Tick(pid, e));
    hide Advance, ProcessOk, PathOk, Grows, Readable, FirstCanaryPassed, GateOk, AttemptOk;
    forall q | 0 <= q < |s'.procs| ensures ProcessOk(s'.disk, s'.sent, q, s'.procs[q]) {
      if q != pid { OtherProcessKept(s.disk, d, s.sent, out, pid, q, s.procs[q]); }
    }
    forall q | q in s'.disk.paths ensures PathOk(s'.disk, s'.sent, q) {
      if q in s.disk.paths { PathKept(s.disk, d, s.sent, out, pid, q); }
    }
    forall i | 0 <= i < |s'.sent|
      ensures Owns(s'.disk, s'.sent[i].pid, s'.sent[i].caseId, s'.sent[i].attempt)
      ensures s'.sent[i].pid < |s'.procs| && GateOk(s'.disk, s'.procs[s'.sent[i].pid].kind, s'.sent[i].caseId)
    {
      var x := s'.sent[i];
      assert i < |s.sent| ==> x == s.sent[i];
      assert Owns(s.disk, x.pid, x.caseId, x.attempt) && GateOk(s.disk, s.procs[x.pid].kind, x.caseId);
      ReadableKept(s.disk, d, pid, Reserved(x.caseId, x.attempt));
      AttemptKept(s.disk, d, pid, s.procs[x.pid].kind, x.caseId, x.attempt);
    }
  }

  lemma StepKeepsInvariant(s: State, l: Label)
    requires Invariant(s)
    ensures Invariant(Step(s, l))
  {
    if l.Tick? && l.pid < |s.procs| { TickKeepsInvariant(s, l.pid, l.env); }
  }

  lemma {:induction false} InvariantAlways(h: seq<Label>)
    ensures Invariant(Run(START, h))
    decreases |h|
  {
    if h != [] {
      InvariantAlways(h[..|h| - 1]);
      StepKeepsInvariant(Run(START, h[..|h| - 1]), h[|h| - 1]);
    }
  }

  // ---------- what the protocol promises ----------

  /** The directory after the first `i` steps of a history that starts with an empty directory. */
  function At(h: seq<Label>, i: nat): State
    requires i <= |h|
  {
    Run(START, h[..i])
  }

  lemma AtStep(h: seq<Label>, i: nat)
    requires i < |h|
    ensures At(h, i + 1) == Step(At(h, i), h[i])
    ensures Invariant(At(h, i)) && Invariant(At(h, i + 1))
  {
    assert h[..i + 1][..i] == h[..i];
    InvariantAlways(h[..i]);
    InvariantAlways(h[..i + 1]);
  }

  /** Each (case, attempt) is dispatched at most once for all time, and only by the process whose complete
      reservation is on disk. */
  lemma AtMostOneDispatch(h: seq<Label>, i: nat, j: nat)
    requires i < j < |Run(START, h).sent|
    ensures var sent := Run(START, h).sent;
            && (sent[i].caseId, sent[i].attempt) != (sent[j].caseId, sent[j].attempt)
            && Owns(Run(START, h).disk, sent[i].pid, sent[i].caseId, sent[i].attempt)
  {
    InvariantAlways(h);
  }

  /** A canary other than the first is dispatched only after a complete row was published that says the first passed. */
  lemma CanarySendsWaitForTheFirst(h: seq<Label>, i: nat)
    requires i < |Run(START, h).sent|
    ensures var s, q := Run(START, h), Published(FIRST_CANARY, 1);
            s.sent[i].pid < |s.procs|
            && (s.procs[s.sent[i].pid].kind.Canary? && s.sent[i].caseId != FIRST_CANARY ==>
                  q in s.disk.paths && s.disk.paths[q] < |s.disk.files|
                  && var f := s.disk.files[s.disk.paths[q]];
                  && f.written == f.size && f.doc.Observation? && f.doc.row.caseId == FIRST_CANARY && f.doc.row.passed)
  {
    InvariantAlways(h);
    if Published(FIRST_CANARY, 1) in Run(START, h).disk.paths {
      assert PathOk(Run(START, h).disk, Run(START, h).sent, Published(FIRST_CANARY, 1));
    }
  }

  /** A published name never disappears and never changes: it holds one author's complete document, the one
      its name calls for, and a row that claims a dispatch has that dispatch on record. */
  lemma {:induction false} PublishedFilesNeverChange(h: seq<Label>, i: nat, j: nat, p: Path)
    requires i <= j <= |h| && p in At(h, i).disk.paths
    ensures Readable(At(h, i).disk, p) && Readable(At(h, j).disk, p)
    ensures At(h, j).disk.files[At(h, j).disk.paths[p]] == At(h, i).disk.files[At(h, i).disk.paths[p]]
    ensures PathOk(At(h, j).disk, At(h, j).sent, p)
    decreases j - i
  {
    hide Run, Step;
    InvariantAlways(h[..j]);
    if i < j {
      PublishedFilesNeverChange(h, i, j - 1, p);
      AtStep(h, j - 1);
      PathsKept(At(h, j - 1), h[j - 1], p);
    }
  }

  lemma PathsKept(s: State, l: Label, p: Path)
    requires Invariant(s) && p in s.disk.paths
    ensures Readable(s.disk, p) && Readable(Step(s, l).disk, p)
    ensures Step(s, l).disk.files[Step(s, l).disk.paths[p]] == s.disk.files[s.disk.paths[p]]
  {
    assert PathOk(s.disk, s.sent, p);
    if l.Tick? && l.pid < |s.procs| {
      StepIsOwn(s, l.pid, l.env);
      hide Advance;
      ReadableKept(s.disk, Step(s, l).disk, l.pid, p);
    }
  }

  // ---------- a rerun after a crash ----------

  /** An attempt that was reserved by a process that is past sending, or that died before it. */
  ghost predicate Orphaned(s: State, c: CaseName, a: nat) {
    && Reserved(c, a) in s.disk.paths
    && forall pid :: 0 <= pid < |s.procs| ==> !AboutToSend(s.procs[pid].phase, c, a)
  }

  predicate AboutToSend(phase: Phase, c: CaseName, a: nat) {
    phase == Ready(c, a)
    || (phase.Reserving? && phase.caseId == c && phase.attempt == a && phase.writer.Cleaning? && phase.writer.won)
  }

  predicate PhaseFrom(phase: Phase, c: CaseName, a: nat) {
    Working(phase) && phase.caseId == c ==> phase.attempt >= a
  }

  /** The cases a process may still start on. */
  function Pending(p: Process): seq<string> {
    match p.phase
    case Preparing(_, unsaved) => unsaved
    case Stopped => []
    case _ => p.todo
  }

  /** The process works on the case from attempt `a` on; a BM25 run never takes up a case with a published row. */
  predicate RerunOk(p: Process, c: CaseName, a: nat) {
    PhaseFrom(p.phase, c, a) && (p.kind.Bm25? && c.BatchCase? && a > 1 ==> c.id !in Pending(p))
  }

  /** The processes numbered from `n` on have sent only attempts of the case after `a`. */
  ghost predicate RerunsHeld(s: State, n: nat, c: CaseName, a: nat) {
    && n <= |s.procs| && Orphaned(s, c, a) && AttemptOk(s.disk, c, a) && (a > 1 ==> Published(c, 1) in s.disk.paths)
    && (forall pid :: n <= pid < |s.procs| ==> RerunOk(s.procs[pid], c, a))
    && (forall x :: x in s.sent && x.caseId == c && n <= x.pid ==> x.attempt > a)
  }

  lemma RerunTick(s: State, pid: nat, e: Env, n: nat, c: CaseName, a: nat)
    requires Invariant(s) && RerunsHeld(s, n, c, a) && pid < |s.procs|
    ensures RerunsHeld(Step(s, Tick(pid, e)), n, c, a)
  {
    var p, s' := s.procs[pid], Step(s, Tick(pid, e));
    var (d', p', out) := Advance(s.disk, pid, p, e);
    assert s'.procs == s.procs[pid := p'] && s'.sent == s.sent + out && s'.disk == d';
    StepIsOwn(s, pid, e);
    assert Grows(s.disk, d', pid) && p'.kind == p.kind;
    assert PathOk(s.disk, s.sent, Reserved(c, a)) && ProcessOk(s.disk, s.sent, pid, p);
    assert a > 1 ==> Published(c, 1) in d'.paths;
    hide Advance, PathOk, Grows, Invariant, OwnStep, AttemptOk, Step;
    AttemptKept(s.disk, d', pid, p.kind, c, a);
    ReadableKept(s.disk, d', pid, Reserved(c, a));
    OwnRerunStep(s.disk, s.sent, pid, p, e, c, a);
    hide ProcessOk;
    forall q | n <= q < |s'.procs| ensures RerunOk(s'.procs[q], c, a) { assert RerunOk(s.procs[q], c, a); }
    forall x | x in s'.sent && x.caseId == c && n <= x.pid ensures x.attempt > a {
      if x !in s.sent {
        assert x in out && x.pid == pid && p.phase.Ready? && x.attempt == p.phase.attempt && p.phase.caseId == c;
        assert RerunOk(p, c, a);
      }
    }
  }

  lemma RerunStep(s: State, l: Label, n: nat, c: CaseName, a: nat)
    requires Invariant(s) && RerunsHeld(s, n, c, a)
    ensures RerunsHeld(Step(s, l), n, c, a)
  {
    if l.Tick? && l.pid < |s.procs| {
      RerunTick(s, l.pid, l.env, n, c, a);
    } else {
      var s' := Step(s, l);
      assert s'.sent == s.sent && s'.disk == s.disk && |s.procs| <= |s'.procs|;
      assert forall q :: 0 <= q < |s.procs| ==> s'.procs[q] == s.procs[q] || s'.procs[q].phase.Stopped?;
      assert forall q :: |s.procs| <= q < |s'.procs| ==> RerunOk(s'.procs[q], c, a);
      hide Invariant, Step, AttemptOk;
      forall q | n <= q < |s'.procs| ensures RerunOk(s'.procs[q], c, a) {
        if q < |s.procs| { assert RerunOk(s.procs[q], c, a); }
      }
    }
  }

  lemma SentByKnown(s: State)
    requires Invariant(s)
    ensures forall x :: x in s.sent ==> x.pid < |s.procs| && Owns(s.disk, x.pid, x.caseId, x.attempt)
  {
  }

  lemma OwnRerunStep(d: Disk, sent: seq<Dispatch>, pid: nat, p: Process, e: Env, c: CaseName, a: nat)
    requires ProcessOk(d, sent, pid, p) && Reserved(c, a) in d.paths && AttemptOk(d, c, a) && !AboutToSend(p.phase, c, a)
    requires a > 1 ==> Published(c, 1) in d.paths
    ensures !AboutToSend(Advance(d, pid, p, e).1.phase, c, a)
    ensures RerunOk(p, c, a) ==> RerunOk(Advance(d, pid, p, e).1, c, a)
    ensures forall x :: x in Advance(d, pid, p, e).2 ==> p.phase.Ready? && x == Dispatch(p.phase.caseId, p.phase.attempt, pid)
  {
    hide WriterStep, PathOk;
    if p.phase.Deciding? {
      DecideFrom(d, p, e, c, a);
    } else if p.phase.Reserving? {
      ReservationLost(d, pid, p.phase.writer, e, c, a);
      hide AttemptOk, FirstCanaryPassed, RowIs;
    } else {
      hide AttemptOk, FirstCanaryPassed, RowIs, Decide;
    }
  }

  lemma ReservationLost(d: Disk, pid: nat, w: Writer, e: Env, c: CaseName, a: nat)
    requires w.path == Reserved(c, a) ==> Reserved(c, a) in d.paths && !(w.Cleaning? && w.won)
    ensures var r := WriterStep(d, pid, w, e).1;
            w.path == Reserved(c, a) ==> (r.Continue? ==> !(r.writer.Cleaning? && r.writer.won)) && (r.Finished? ==> !r.won)
  {
  }

  lemma DecideFrom(d: Disk, p: Process, e: Env, c: CaseName, a: nat)
    requires p.phase.Deciding? && AttemptOk(d, c, a) && (a > 1 ==> Published(c, 1) in d.paths)
    ensures !AboutToSend(Decide(d, p, e).phase, c, a)
    ensures RerunOk(p, c, a) ==> RerunOk(Decide(d, p, e), c, a)
  {
  }

  /** Behind every later attempt lie published retryable rows of all attempts before it. */
  lemma {:induction false} EarlierRows(s: State, c: CaseName, b: nat, a: nat)
    requires Invariant(s) && AttemptOk(s.disk, c, b) && 1 <= a < b
    ensures RowIs(s.disk, c, a, Retryable)
    decreases b
  {
    hide Invariant;
    if a < b - 1 {
      PublishedAttempt(s, c, b - 1);
      EarlierRows(s, c, b - 1, a);
    }
  }

  lemma PublishedAttempt(s: State, c: CaseName, a: nat)
    requires Invariant(s) && Published(c, a) in s.disk.paths
    ensures AttemptOk(s.disk, c, a)
  {
    assert PathOk(s.disk, s.sent, Published(c, a));
  }

  lemma RerunStart(s: State, c: CaseName, a: nat)
    requires Invariant(s) && Orphaned(s, c, a)
    ensures RerunsHeld(s, |s.procs|, c, a)
  {
    SentByKnown(s);
    assert PathOk(s.disk, s.sent, Reserved(c, a));
    if a > 1 { EarlierRows(s, c, a, 1); }
  }

  lemma {:induction false} RerunsHeldAlways(h: seq<Label>, i: nat, j: nat, c: CaseName, a: nat)
    requires i <= j <= |h| && Orphaned(At(h, i), c, a)
    ensures RerunsHeld(At(h, j), |At(h, i).procs|, c, a)
    decreases j - i
  {
    hide Run, Step, Invariant, RerunsHeld, Orphaned;
    if i == j {
      InvariantAlways(h[..i]);
      RerunStart(At(h, i), c, a);
    } else {
      RerunsHeldAlways(h, i, j - 1, c, a);
      AtStep(h, j - 1);
      RerunStep(At(h, j - 1), h[j - 1], |At(h, i).procs|, c, a);
    }
  }

  /** Once an attempt is reserved and its owner is past sending or dead, no process started later, of any
      kind, dispatches the case as long as no retryable row of that attempt is published. */
  lemma RerunSendsNothingUnpublished(h: seq<Label>, i: nat, j: nat, c: CaseName, a: nat)
    requires i <= j <= |h| && Orphaned(At(h, i), c, a)
    ensures forall x :: x in At(h, j).sent && x.caseId == c && |At(h, i).procs| <= x.pid ==>
              x.attempt > a && RowIs(At(h, j).disk, c, a, Retryable)
  {
    InvariantAlways(h[..i]);
    InvariantAlways(h[..j]);
    RerunsHeldAlways(h, i, j, c, a);
    hide Run, Invariant, Orphaned;
    var s := At(h, j);
    SentByKnown(s);
    AttemptPositive(At(h, i), c, a);
    forall x | x in s.sent && x.caseId == c && |At(h, i).procs| <= x.pid ensures x.attempt > a && RowIs(s.disk, c, a, Retryable) {
      ReservedAttempt(s, c, x.attempt);
      EarlierRows(s, c, x.attempt, a);
    }
  }

  lemma AttemptPositive(s: State, c: CaseName, a: nat)
    requires Invariant(s) && Orphaned(s, c, a)
    ensures a >= 1
  {
    ReservedAttempt(s, c, a);
  }

  lemma ReservedAttempt(s: State, c: CaseName, a: nat)
    requires Invariant(s) && Reserved(c, a) in s.disk.paths
    ensures AttemptOk(s.disk, c, a) && a >= 1
  {
    assert PathOk(s.disk, s.sent, Reserved(c, a));
  }

  // ---------- a crash between reservation and row ----------

  /** The attempt was reserved, its owner is gone, and no row of it is published. */
  ghost predicate Abandoned(s: State, c: CaseName, a: nat) {
    && Reserved(c, a) in s.disk.paths && Published(c, a) !in s.disk.paths
    && forall pid :: 0 <= pid < |s.procs| && Owns(s.disk, pid, c, a) ==> s.procs[pid].phase.Stopped?
  }

  predicate UndispatchedRow(d: Disk, c: CaseName, a: nat) {
    Readable(d, Published(c, a))
    && var doc := d.files[d.paths[Published(c, a)]].doc;
    doc.Observation? && !doc.row.dispatched
  }

  /** The owner is gone; if a row of the attempt appears, it is not the owner's: it claims no dispatch. */
  ghost predicate Gone(s: State, c: CaseName, a: nat) {
    && Reserved(c, a) in s.disk.paths
    && (forall pid :: 0 <= pid < |s.procs| && Owns(s.disk, pid, c, a) ==> s.procs[pid].phase.Stopped?)
    && (Published(c, a) in s.disk.paths ==> UndispatchedRow(s.disk, c, a))
  }

  lemma AbandonedIsOrphaned(s: State, c: CaseName, a: nat)
    requires Invariant(s) && Abandoned(s, c, a)
    ensures Orphaned(s, c, a) && Gone(s, c, a)
  {
    forall pid | 0 <= pid < |s.procs| ensures !AboutToSend(s.procs[pid].phase, c, a) {
      assert ProcessOk(s.disk, s.sent, pid, s.procs[pid]);
    }
  }

  lemma AdvancePublishes(d: Disk, pid: nat, p: Process, e: Env)
    ensures p.phase.Stopped? ==> Advance(d, pid, p, e) == (d, p, [])
    ensures forall q :: q in Advance(d, pid, p, e).0.paths && q !in d.paths ==>
              (p.phase.Reserving? || p.phase.Publishing?) && p.phase.writer.path == q && Advance(d, pid, p, e).2 == []
  {
  }

  lemma GoneTick(s: State, pid: nat, e: Env, c: CaseName, a: nat)
    requires Invariant(s) && Gone(s, c, a) && pid < |s.procs|
    ensures Gone(Step(s, Tick(pid, e)), c, a)
  {
    var p, s' := s.procs[pid], Step(s, Tick(pid, e));
    var (d', p', out) := Advance(s.disk, pid, p, e);
    assert s'.procs == s.procs[pid := p'] && s'.disk == d';
    StepIsOwn(s, pid, e);
    assert Grows(s.disk, d', pid);
    assert PathOk(s.disk, s.sent, Reserved(c, a));
    SentByKnown(s);
    AdvancePublishes(s.disk, pid, p, e);
    ReadableKept(s.disk, d', pid, Reserved(c, a));
    if Published(c, a) in s.disk.paths {
      assert PathOk(s.disk, s.sent, Published(c, a));
      ReadableKept(s.disk, d', pid, Published(c, a));
    } else if Published(c, a) in d'.paths {
      assert PathOk(d', s.sent + out, Published(c, a)) && out == [] && s.sent + out == s.sent;
      assert d'.files[d'.paths[Published(c, a)]].author == pid;
    }
    hide Advance, Step, Invariant, OwnStep, PathOk, Grows;
  }

  lemma GoneStep(s: State, l: Label, c: CaseName, a: nat)
    requires Invariant(s) && Gone(s, c, a)
    ensures Gone(Step(s, l), c, a)
  {
    if l.Tick? && l.pid < |s.procs| {
      GoneTick(s, l.pid, l.env, c, a);
    } else {
      assert PathOk(s.disk, s.sent, Reserved(c, a));
      assert s.disk.files[s.disk.paths[Reserved(c, a)]].author < |s.procs|;
    }
  }

  lemma {:induction false} GoneAlways(h: seq<Label>, i: nat, j: nat, c: CaseName, a: nat)
    requires i <= j <= |h| && Gone(At(h, i), c, a)
    ensures Gone(At(h, j), c, a)
    decreases j - i
  {
    hide Run, Step, Invariant, Gone;
    if i < j {
      GoneAlways(h, i, j - 1, c, a);
      AtStep(h, j - 1);
      GoneStep(At(h, j - 1), h[j - 1], c, a);
    }
  }

  /** A rerun after a crash between reservation and row sends nothing for that case, unless a row of the
      attempt was published that claims no dispatch and may be retried. */
  lemma CrashedAttemptIsNeverRepeated(h: seq<Label>, i: nat, j: nat, c: CaseName, a: nat)
    requires i <= j <= |h| && Abandoned(At(h, i), c, a)
    ensures Published(c, a) in At(h, j).disk.paths ==> UndispatchedRow(At(h, j).disk, c, a)
    ensures forall x :: x in At(h, j).sent && x.caseId == c && |At(h, i).procs| <= x.pid ==>
              x.attempt > a && UndispatchedRow(At(h, j).disk, c, a) && RowIs(At(h, j).disk, c, a, Retryable)
  {
    hide Run, Invariant, Gone, Orphaned, Abandoned;
    InvariantAlways(h[..i]);
    AbandonedIsOrphaned(At(h, i), c, a);
    GoneAlways(h, i, j, c, a);
    RerunSendsNothingUnpublished(h, i, j, c, a);
    GoneMeans(At(h, j), c, a);
  }

  lemma GoneMeans(s: State, c: CaseName, a: nat)
    requires Gone(s, c, a)
    ensures Published(c, a) in s.disk.paths ==> UndispatchedRow(s.disk, c, a)
  {
  }

  // ---------- runs that continue a run ----------

  lemma RunConcat(s: State, h: seq<Label>, g: seq<Label>)
    ensures Run(s, h + g) == Run(Run(s, h), g)
    decreases |g|
  {
    if g == [] {
      assert h + g == h;
    } else {
      RunConcat(s, h, g[..|g| - 1]);
      assert (h + g)[..|h + g| - 1] == h + g[..|g| - 1];
    }
  }

  lemma RunMore(s: State, g: seq<Label>, l: Label)
    ensures Run(s, g + [l]) == Step(Run(s, g), l)
  {
    assert (g + [l])[..|g|] == g;
  }

  // ---------- which row a report uses ----------

  predicate Newest(rows: seq<Row>, row: Row) {
    row in rows && forall r :: r in rows && r.caseId == row.caseId ==> r.attempt <= row.attempt
  }

  /** The rows a report is built from: per case the newest attempt, in whatever order the directory lists
      the files, except that a reviewed selection replaces it. */
  method SelectedObservations(rows: seq<Row>, selections: map<CaseName, Row>) returns (chosen: map<CaseName, Row>)
    ensures chosen.Keys == (set r | r in rows :: r.caseId) + selections.Keys
    ensures forall c :: c in selections ==> chosen[c] == selections[c]
    ensures forall c :: c in chosen && c !in selections ==> chosen[c].caseId == c && Newest(rows, chosen[c])
  {
    var newest: map<CaseName, Row> := map[];
    for i := 0 to |rows|
      invariant newest.Keys == set r | r in rows[..i] :: r.caseId
      invariant forall c :: c in newest ==> newest[c].caseId == c && Newest(rows[..i], newest[c])
    {
      var row := rows[i];
      assert rows[..i + 1] == rows[..i] + [row];
      if row.caseId !in newest || row.attempt > newest[row.caseId].attempt {
        newest := newest[row.caseId := row];
      }
    }
    assert rows[..|rows|] == rows;
    chosen := newest + selections;
  }
}
