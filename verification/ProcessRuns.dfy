/** Runs of one process that nothing disturbs: what it writes, sends and publishes by its own steps. */
module ProcessRuns {
  import opened Wrappers
  import opened ReportDispatch

  /** Nothing is in the way of the case the process is working on: its names are free or its own. */
  predicate Viable(d: Disk, phase: Phase) {
    match phase
    case Deciding => true
    case Reserving(c, a, w) => Published(c, a) !in d.paths && if w.Cleaning? then w.won else Reserved(c, a) !in d.paths
    case Ready(c, a) => Published(c, a) !in d.paths
    case Sent(c, a) => Published(c, a) !in d.paths
    case Publishing(c, a, _, w) => if w.Cleaning? then w.won else Published(c, a) !in d.paths
    case _ => false
  }

  /** A step in which nothing fails. */
  function Fine(latest: nat, chunk: nat, outcome: Outcome): Env {
    Env(latest, true, false, false, 0, chunk, outcome, outcome.Answered?)
  }

  predicate NoSpawns(g: seq<Label>) { forall i :: 0 <= i < |g| ==> !g[i].Spawn? }

  /** Steps of one process in which nothing fails. */
  predicate OwnTicks(g: seq<Label>, pid: nat) {
    forall i :: 0 <= i < |g| ==> g[i].Tick? && g[i].pid == pid && !g[i].env.fails
  }

  /** The row is published, complete, under its own name. */
  predicate Stands(d: Disk, row: Row) {
    Readable(d, Published(row.caseId, row.attempt))
    && d.files[d.paths[Published(row.caseId, row.attempt)]].doc == Observation(row)
  }

  /** A row is published by which the first canary passed. */
  ghost predicate FirstPassed(d: Disk) {
    exists row: Row :: row.caseId == FIRST_CANARY && row.attempt == 1 && row.passed && Stands(d, row)
  }

  lemma FirstPassedMeans(s: State)
    requires Invariant(s)
    ensures FirstCanaryPassed(s.disk) <==> FirstPassed(s.disk)
  {
    var q := Published(FIRST_CANARY, 1);
    if q in s.disk.paths {
      assert PathOk(s.disk, s.sent, q);
      var row := s.disk.files[s.disk.paths[q]].doc.row;
      assert Stands(s.disk, row);
    }
  }

  /** The row a process has linked is the one its phase holds. */
  lemma OwnRow(s: State, pid: nat, e: Env)
    requires Invariant(s) && pid < |s.procs| && s.procs[pid].phase.Publishing?
    requires s.procs[pid].phase.writer.Cleaning? && s.procs[pid].phase.writer.won
    ensures var phase, d' := s.procs[pid].phase, Advance(s.disk, pid, s.procs[pid], e).0;
            RowIs(d', phase.caseId, phase.attempt, phase.row.outcome) && Stands(d', phase.row)
            && phase.row.caseId == phase.caseId && phase.row.attempt == phase.attempt
  {
    assert ProcessOk(s.disk, s.sent, pid, s.procs[pid]);
  }

  lemma StandsMeans(d: Disk, row: Row)
    ensures Stands(d, row) ==> RowIs(d, row.caseId, row.attempt, row.outcome)
  {
  }

  lemma RunFirst(s: State, l: Label, g: seq<Label>)
    ensures Run(s, [l] + g) == Run(Step(s, l), g)
  {
    RunMore(s, [], l);
    assert [] + [l] == [l];
    RunConcat(s, [l], g);
  }

  function Names(s: State): set<Path> { s.disk.paths.Keys }

  function StepsLeft(w: Writer): nat {
    match w
    case Checking(_, _) => 3
    case Writing(_, _) => 2
    case Linking(_, _) => 1
    case Cleaning(_, _, _) => 0
  }

  predicate Free(d: Disk, w: Writer) { if w.Cleaning? then w.won else w.path !in d.paths }

  /** An undisturbed writer moves on, and adds its name when it links. */
  lemma WriterMoves(d: Disk, pid: nat, w: Writer, path: Path, doc: Document) returns (chunk: nat)
    requires WriterOk(d, pid, w, path, doc) && Free(d, w)
    ensures forall o :: WriterMoved(d, pid, w, Fine(0, chunk, o))
  {
    chunk := if w.Writing? then d.files[w.inode].size else 0;
  }

  predicate WriterMoved(d: Disk, pid: nat, w: Writer, e: Env) {
    var (d', r) := WriterStep(d, pid, w, e);
    if w.Cleaning? then r == Finished(true) && d'.paths == d.paths
    else r.Continue? && StepsLeft(r.writer) < StepsLeft(w) && (r.writer.Cleaning? ==> r.writer.won)
         && (r.writer.Cleaning? <==> w.Linking?)
         && d'.paths.Keys == if w.Linking? then d.paths.Keys + {w.path} else d.paths.Keys
  }

  /** One undisturbed step of a reserving process. */
  lemma ReservingMoves(s: State, pid: nat) returns (l: Label)
    requires Invariant(s) && pid < |s.procs| && s.procs[pid].phase.Reserving? && Viable(s.disk, s.procs[pid].phase)
    ensures l.Tick? && l.pid == pid && !l.env.fails
    ensures var p, s1 := s.procs[pid], Step(s, l);
            var c, a, w := p.phase.caseId, p.phase.attempt, p.phase.writer;
            && s1.sent == s.sent
            && Names(s1) == (if w.Linking? then Names(s) + {Reserved(c, a)} else Names(s))
            && if w.Cleaning? then s1.procs == s.procs[pid := p.(phase := Ready(c, a))] && Reserved(c, a) in Names(s)
               else exists w' :: StepsLeft(w') < StepsLeft(w) && s1.procs == s.procs[pid := p.(phase := Reserving(c, a, w'))]
                                 && Viable(s1.disk, Reserving(c, a, w')) && (w'.Cleaning? <==> w.Linking?)
  {
    var p := s.procs[pid];
    var c, a, w := p.phase.caseId, p.phase.attempt, p.phase.writer;
    assert ProcessOk(s.disk, s.sent, pid, p);
    var chunk := WriterMoves(s.disk, pid, w, Reserved(c, a), Note(c, a));
    l := Tick(pid, Fine(0, chunk, Other));
    assert WriterMoved(s.disk, pid, w, l.env);
    hide WriterStep, Invariant, AttemptOk, GateOk, Prepare, Decide;
    assert s.sent + [] == s.sent;
    if !w.Cleaning? {
      var w' := WriterStep(s.disk, pid, w, l.env).1.writer;
      assert Step(s, l).procs == s.procs[pid := p.(phase := Reserving(c, a, w'))];
    }
  }

  lemma {:induction false} ReservingFinishes(s: State, pid: nat) returns (g: seq<Label>)
    requires Invariant(s) && pid < |s.procs| && s.procs[pid].phase.Reserving? && Viable(s.disk, s.procs[pid].phase)
    ensures OwnTicks(g, pid) && NoSpawns(g)
    ensures var p, t := s.procs[pid], Run(s, g);
            var c, a := p.phase.caseId, p.phase.attempt;
            t.procs == s.procs[pid := p.(phase := Ready(c, a))] && t.sent == s.sent && Names(t) == Names(s) + {Reserved(c, a)}
    decreases StepsLeft(s.procs[pid].phase.writer)
  {
    hide Run, Step, Invariant, Viable, Names;
    var l := ReservingMoves(s, pid);
    StepKeepsInvariant(s, l);
    if s.procs[pid].phase.writer.Cleaning? {
      g := [l];
      RunFirst(s, l, []);
      EmptyRun(Step(s, l));
    } else {
      var rest := ReservingFinishes(Step(s, l), pid);
      g := [l] + rest;
      RunFirst(s, l, rest);
    }
  }

  lemma EmptyRun(s: State)
    ensures Run(s, []) == s
    ensures forall l: Label :: [l] + [] == [l]
  {
  }

  /** The process once its row is published. */
  function NextCase(p: Process, row: Row): Process {
    if p.todo == [] || (p.kind.Canary? && !row.passed) then p.(phase := Stopped)
    else p.(todo := p.todo[1..], good := WithRow(p.good, p.todo[0], row), phase := Deciding)
  }

  /** One undisturbed step of a publishing process. */
  lemma PublishingMoves(s: State, pid: nat) returns (l: Label)
    requires Invariant(s) && pid < |s.procs| && s.procs[pid].phase.Publishing? && Viable(s.disk, s.procs[pid].phase)
    ensures l.Tick? && l.pid == pid && !l.env.fails
    ensures var p, s1 := s.procs[pid], Step(s, l);
            var c, a, row, w := p.phase.caseId, p.phase.attempt, p.phase.row, p.phase.writer;
            && s1.sent == s.sent
            && Names(s1) == (if w.Linking? then Names(s) + {Published(c, a)} else Names(s))
            && if w.Cleaning? then s1.procs == s.procs[pid := NextCase(p, row)] && Stands(s1.disk, row) && row.caseId == c && row.attempt == a && Published(c, a) in Names(s)
               else exists w' :: StepsLeft(w') < StepsLeft(w) && s1.procs == s.procs[pid := p.(phase := Publishing(c, a, row, w'))]
                                 && Viable(s1.disk, Publishing(c, a, row, w')) && (w'.Cleaning? <==> w.Linking?)
  {
    var p := s.procs[pid];
    var c, a, row, w := p.phase.caseId, p.phase.attempt, p.phase.row, p.phase.writer;
    assert ProcessOk(s.disk, s.sent, pid, p);
    var chunk := WriterMoves(s.disk, pid, w, Published(c, a), Observation(row));
    l := Tick(pid, Fine(0, chunk, Other));
    assert WriterMoved(s.disk, pid, w, l.env);
    if w.Cleaning? { OwnRow(s, pid, l.env); }
    hide WriterStep, Invariant, AttemptOk, GateOk, Stands;
    assert s.sent + [] == s.sent;
    if !w.Cleaning? {
      var w' := WriterStep(s.disk, pid, w, l.env).1.writer;
      assert Step(s, l).procs == s.procs[pid := p.(phase := Publishing(c, a, row, w'))];
    }
  }

  lemma {:induction false} PublishingFinishes(s: State, pid: nat) returns (g: seq<Label>)
    requires Invariant(s) && pid < |s.procs| && s.procs[pid].phase.Publishing? && Viable(s.disk, s.procs[pid].phase)
    ensures OwnTicks(g, pid) && NoSpawns(g)
    ensures var p, t := s.procs[pid], Run(s, g);
            var c, a, row := p.phase.caseId, p.phase.attempt, p.phase.row;
            t.procs == s.procs[pid := NextCase(p, row)] && t.sent == s.sent && Names(t) == Names(s) + {Published(c, a)}
            && Stands(t.disk, row) && row.caseId == c && row.attempt == a && RowIs(t.disk, c, a, row.outcome)
    decreases StepsLeft(s.procs[pid].phase.writer)
  {
    hide Run, Step, Invariant, Viable, RowIs, Names, Stands;
    var l := PublishingMoves(s, pid);
    StepKeepsInvariant(s, l);
    if s.procs[pid].phase.writer.Cleaning? {
      g := [l];
      RunFirst(s, l, []);
      EmptyRun(Step(s, l));
      StandsMeans(Step(s, l).disk, s.procs[pid].phase.row);
    } else {
      var rest := PublishingFinishes(Step(s, l), pid);
      g := [l] + rest;
      RunFirst(s, l, rest);
    }
  }

  /** The row a process will publish for its case when nothing fails. */
  function ComingRow(p: Process, outcome: Outcome): Row
    requires Working(p.phase)
  {
    if p.phase.Publishing? then p.phase.row
    else Row(p.phase.caseId, p.phase.attempt, true, Observed(p.kind, outcome), outcome.Answered?)
  }

  function StagesLeft(phase: Phase): nat {
    match phase case Reserving(_, _, _) => 3 case Ready(_, _) => 2 case Sent(_, _) => 1 case _ => 0
  }

  /** A process finishes the case it is working on. */
  lemma CaseFinishes(s: State, pid: nat, outcome: Outcome) returns (g: seq<Label>)
    requires Invariant(s) && pid < |s.procs| && Working(s.procs[pid].phase) && Viable(s.disk, s.procs[pid].phase)
    ensures OwnTicks(g, pid) && NoSpawns(g)
    ensures var p, t := s.procs[pid], Run(s, g);
            var c, a, row := p.phase.caseId, p.phase.attempt, ComingRow(p, outcome);
            t.procs == s.procs[pid := NextCase(p, row)] && Stands(t.disk, row) && RowIs(t.disk, c, a, row.outcome)
            && t.sent == s.sent + (if p.phase.Reserving? || p.phase.Ready? then [Dispatch(c, a, pid)] else [])
            && Names(t) == Names(s) + (if p.phase.Reserving? then {Reserved(c, a)} else {}) + {Published(c, a)}
    decreases StagesLeft(s.procs[pid].phase)
  {
    hide Run, Invariant, RowIs, Stands, NextCase, WriterStep, Decide, Prepare;
    var p := s.procs[pid];
    assert s.sent + [] == s.sent;
    if p.phase.Publishing? {
      g := PublishingFinishes(s, pid);
    } else if p.phase.Reserving? {
      var c, a := p.phase.caseId, p.phase.attempt;
      var g1 := ReservingFinishes(s, pid);
      RunKeepsInvariant(s, g1);
      var t := Run(s, g1);
      SamePaths(s, t, Reserved(c, a), Published(c, a));
      NextSame(p, Ready(c, a), ComingRow(p, outcome));
      var g2 := CaseFinishes(t, pid, outcome);
      g := g1 + g2;
      RunConcat(s, g1, g2);
    } else {
      var l := Tick(pid, Fine(0, 0, outcome));
      StepKeepsInvariant(s, l);
      var t := Step(s, l);
      NextSame(p, t.procs[pid].phase, ComingRow(p, outcome));
      var g2 := CaseFinishes(t, pid, outcome);
      g := [l] + g2;
      RunFirst(s, l, g2);
    }
  }

  lemma SamePaths(s: State, t: State, added: Path, p: Path)
    requires Names(t) == Names(s) + {added} && p != added
    ensures p in t.disk.paths <==> p in s.disk.paths
  {
    assert p in Names(t) <==> p in Names(s);
  }

  lemma NextSame(p: Process, phase: Phase, row: Row)
    ensures NextCase(p.(phase := phase), row) == NextCase(p, row)
  {
  }

  lemma {:induction false} RunKeepsInvariant(s: State, g: seq<Label>)
    requires Invariant(s)
    ensures Invariant(Run(s, g))
    decreases |g|
  {
    hide Step, Invariant;
    if g != [] {
      RunKeepsInvariant(s, g[..|g| - 1]);
      StepKeepsInvariant(Run(s, g[..|g| - 1]), g[|g| - 1]);
    }
  }

  lemma {:induction false} NamesGrow(s: State, g: seq<Label>)
    requires Invariant(s)
    ensures Names(s) <= Names(Run(s, g))
    decreases |g|
  {
    hide Step, Invariant;
    if g != [] {
      var init := g[..|g| - 1];
      NamesGrow(s, init);
      RunKeepsInvariant(s, init);
      forall p | p in Names(s) ensures p in Names(Run(s, g)) {
        assert p in Names(Run(s, init));
        PathsKept(Run(s, init), g[|g| - 1], p);
      }
    }
  }

  lemma TickReadySends(s: State, pid: nat, e: Env)
    requires pid < |s.procs| && s.procs[pid].phase.Ready?
    ensures Step(s, Tick(pid, e)).sent == s.sent + [Dispatch(s.procs[pid].phase.caseId, s.procs[pid].phase.attempt, pid)]
  {
  }

  lemma TickDeciding(s: State, pid: nat, e: Env)
    requires pid < |s.procs| && s.procs[pid].phase.Deciding?
    ensures Step(s, Tick(pid, e)) == State(s.disk, s.procs[pid := Decide(s.disk, s.procs[pid], e)], s.sent)
  {
    hide Decide;
    assert s.sent + [] == s.sent;
  }
}
