/** What a runner gets done when nothing disturbs it: which cases it sends, in which order, and what it publishes. */
module BatchRuns {
  import opened FollowUps
  import opened ProcessRuns
  import opened ReportDispatch
  import opened Wrappers

  /** The first attempts of the cases, dispatched in this order. */
  function Dispatches(kind: Kind, ids: seq<string>, pid: nat): seq<Dispatch> {
    seq(|ids|, i requires 0 <= i < |ids| => Dispatch(NameOf(kind, ids[i]), 1, pid))
  }

  predicate Unfiled(d: Disk, c: CaseName) {
    Reserved(c, 1) !in d.paths && Published(c, 1) !in d.paths
  }

  /** The row that records a dispatch of the first attempt. */
  function SentRow(kind: Kind, id: string, outcome: Outcome): Row {
    Row(NameOf(kind, id), 1, true, Observed(kind, outcome), outcome.Answered?)
  }

  lemma {:induction false} StandsThroughout(s: State, g: seq<Label>, row: Row)
    requires Invariant(s) && Stands(s.disk, row)
    ensures Stands(Run(s, g).disk, row)
    decreases |g|
  {
    hide Step, Invariant;
    if g != [] {
      var init := g[..|g| - 1];
      StandsThroughout(s, init, row);
      RunKeepsInvariant(s, init);
      PathsKept(Run(s, init), g[|g| - 1], Published(row.caseId, row.attempt));
    }
  }

  // ---------- lists of cases ----------

  /** The runner may take up its next case. */
  predicate MayGo(s: State, p: Process) {
    p.kind.Canary? && p.todo != [] ==> NameOf(p.kind, p.todo[0]) == FIRST_CANARY || FirstCanaryPassed(s.disk)
  }

  ghost predicate AllStand(d: Disk, kind: Kind, ids: seq<string>, outcome: Outcome) {
    forall i :: 0 <= i < |ids| ==> Stands(d, SentRow(kind, ids[i], outcome))
  }

  predicate OnlyNames(s: State, t: State, kind: Kind, ids: seq<string>) {
    forall q :: q in Names(t) ==> q in Names(s) || (q.attempt == 1 && exists i :: 0 <= i < |ids| && q.caseId == NameOf(kind, ids[i]))
  }

  /** The next case of a list is sent and its row published. */
  lemma SendsNext(s: State, pid: nat, outcome: Outcome) returns (g: seq<Label>)
    requires Invariant(s) && pid < |s.procs| && s.procs[pid].phase.Deciding? && !s.procs[pid].kind.Collect? && s.procs[pid].todo != []
    requires MayGo(s, s.procs[pid]) && Unfiled(s.disk, NameOf(s.procs[pid].kind, s.procs[pid].todo[0]))
    ensures OwnTicks(g, pid)
    ensures var p, t := s.procs[pid], Run(s, g);
            var c, row := NameOf(p.kind, p.todo[0]), SentRow(p.kind, p.todo[0], outcome);
            && t.sent == s.sent + [Dispatch(c, 1, pid)] && t.procs == s.procs[pid := NextCase(p, row)] && Stands(t.disk, row)
            && Names(t) == Names(s) + {Reserved(c, 1), Published(c, 1)}
  {
    hide Run, Decide, Invariant, RowIs, Stands, FirstCanaryPassed;
    var p := s.procs[pid];
    var l := Tick(pid, Fine(0, 0, outcome));
    TakenUpNext(s, p, l.env);
    TickDeciding(s, pid, l.env);
    StepKeepsInvariant(s, l);
    var t := Step(s, l);
    NextSame(p, t.procs[pid].phase, SentRow(p.kind, p.todo[0], outcome));
    hide Step, NextCase;
    var g2 := CaseFinishes(t, pid, outcome);
    g := [l] + g2;
    RunFirst(s, l, g2);
  }

  lemma TakenUpNext(s: State, p: Process, e: Env)
    requires p.phase.Deciding? && !p.kind.Collect? && p.todo != [] && e.identityOk && MayGo(s, p)
    requires Unfiled(s.disk, NameOf(p.kind, p.todo[0]))
    ensures var c := NameOf(p.kind, p.todo[0]);
            Decide(s.disk, p, e) == p.(phase := Reserve(c, 1)) && Viable(s.disk, Reserve(c, 1))
  {
  }

  /** A runner sends all its cases, once each and in order, and publishes a row for each. */
  lemma {:induction false} SendsAll(s: State, pid: nat, outcome: Outcome) returns (g: seq<Label>)
    requires Invariant(s) && pid < |s.procs| && s.procs[pid].phase.Deciding? && !s.procs[pid].kind.Collect?
    requires Distinct(s.procs[pid].todo) && MayGo(s, s.procs[pid]) && (s.procs[pid].kind.Canary? ==> outcome.Answered?)
    requires forall i :: 0 <= i < |s.procs[pid].todo| ==> Unfiled(s.disk, NameOf(s.procs[pid].kind, s.procs[pid].todo[i]))
    ensures OwnTicks(g, pid)
    ensures var p, t := s.procs[pid], Run(s, g);
            && t.sent == s.sent + Dispatches(p.kind, p.todo, pid) && AllStand(t.disk, p.kind, p.todo, outcome)
            && OnlyNames(s, t, p.kind, p.todo) && |t.procs| == |s.procs| && t.procs[pid].phase.Stopped?
    decreases |s.procs[pid].todo|
  {
    hide Run, Step, Invariant, Stands, Viable, Decide;
    var p := s.procs[pid];
    if p.todo == [] {
      var l := Tick(pid, Fine(0, 0, outcome));
      TickDeciding(s, pid, l.env);
      NothingLeft(s.disk, p, l.env);
      g := [l];
      RunFirst(s, l, []);
      EmptyRun(Step(s, l));
      assert s.sent + [] == s.sent;
    } else {
      var g1 := SendsNext(s, pid, outcome);
      var t, row := Run(s, g1), SentRow(p.kind, p.todo[0], outcome);
      RunKeepsInvariant(s, g1);
      GateStaysOpen(s, g1, t, p, row);
      StillUnfiled(s, t, p);
      var g2 := SendsAll(t, pid, outcome);
      g := g1 + g2;
      RunConcat(s, g1, g2);
      StandsThroughout(t, g2, row);
      Assembled(s, t, Run(t, g2), p, pid, outcome);
    }
  }

  lemma Assembled(s: State, t: State, u: State, p: Process, pid: nat, outcome: Outcome)
    requires p.todo != [] && t.sent == s.sent + [Dispatch(NameOf(p.kind, p.todo[0]), 1, pid)]
    requires u.sent == t.sent + Dispatches(p.kind, p.todo[1..], pid) && AllStand(u.disk, p.kind, p.todo[1..], outcome)
    requires Stands(u.disk, SentRow(p.kind, p.todo[0], outcome)) && OnlyNames(t, u, p.kind, p.todo[1..])
    requires Names(t) == Names(s) + {Reserved(NameOf(p.kind, p.todo[0]), 1), Published(NameOf(p.kind, p.todo[0]), 1)}
    ensures u.sent == s.sent + Dispatches(p.kind, p.todo, pid) && AllStand(u.disk, p.kind, p.todo, outcome) && OnlyNames(s, u, p.kind, p.todo)
  {
    hide Stands;
    assert Dispatches(p.kind, p.todo, pid) == [Dispatch(NameOf(p.kind, p.todo[0]), 1, pid)] + Dispatches(p.kind, p.todo[1..], pid);
    forall q | q in Names(u) && q !in Names(s)
      ensures q.attempt == 1 && exists i :: 0 <= i < |p.todo| && q.caseId == NameOf(p.kind, p.todo[i])
    {
      if q !in Names(t) {
        var i :| 0 <= i < |p.todo[1..]| && q.caseId == NameOf(p.kind, p.todo[1..][i]);
        assert q.caseId == NameOf(p.kind, p.todo[i + 1]);
      }
    }
  }

  lemma StillUnfiled(s: State, t: State, p: Process)
    requires p.todo != [] && Distinct(p.todo) && forall i :: 0 <= i < |p.todo| ==> Unfiled(s.disk, NameOf(p.kind, p.todo[i]))
    requires Names(t) == Names(s) + {Reserved(NameOf(p.kind, p.todo[0]), 1), Published(NameOf(p.kind, p.todo[0]), 1)}
    ensures forall i :: 0 <= i < |p.todo[1..]| ==> Unfiled(t.disk, NameOf(p.kind, p.todo[1..][i]))
  {
    forall i | 0 <= i < |p.todo[1..]| ensures Unfiled(t.disk, NameOf(p.kind, p.todo[1..][i])) {
      var c := NameOf(p.kind, p.todo[i + 1]);
      assert Unfiled(s.disk, c) && p.todo[0] != p.todo[i + 1];
      assert Reserved(c, 1) !in Names(t) && Published(c, 1) !in Names(t);
    }
  }

  /** Once the first canary has passed, the gate stays open; publishing it as passed opens it. */
  lemma GateStaysOpen(s: State, g: seq<Label>, t: State, p: Process, row: Row)
    requires Invariant(s) && t == Run(s, g) && p.todo != [] && MayGo(s, p) && Stands(t.disk, row)
    requires row.caseId == NameOf(p.kind, p.todo[0]) && row.attempt == 1 && (p.kind.Canary? ==> row.passed)
    ensures p.kind.Canary? ==> FirstCanaryPassed(t.disk)
  {
    hide Run;
    if p.kind.Canary? && FirstCanaryPassed(s.disk) {
      var first := s.disk.files[s.disk.paths[Published(FIRST_CANARY, 1)]].doc.row;
      assert PathOk(s.disk, s.sent, Published(FIRST_CANARY, 1));
      hide Invariant;
      StandsThroughout(s, g, first);
    }
  }

  // ---------- the BM25 runner ----------

  /** The cases without a published row, in their order. */
  function Missing(d: Disk, cases: seq<string>): seq<string>
    decreases |cases|
  {
    if cases == [] then []
    else
      var last := cases[|cases| - 1];
      Missing(d, cases[..|cases| - 1]) + if Published(BatchCase(last), 1) in d.paths then [] else [last]
  }

  lemma {:induction false} MissingMeans(d: Disk, cases: seq<string>)
    requires Distinct(cases)
    ensures Distinct(Missing(d, cases))
    ensures forall id :: id in Missing(d, cases) <==> id in cases && Published(BatchCase(id), 1) !in d.paths
    decreases |cases|
  {
    if cases != [] {
      var init := cases[..|cases| - 1];
      MissingMeans(d, init);
      assert cases == init + [cases[|cases| - 1]];
      forall id | id in init ensures id != cases[|cases| - 1] {}
    }
  }

  /** Every case has its row, or no file of its first attempt. */
  predicate Settleable(d: Disk, cases: seq<string>) {
    forall i :: 0 <= i < |cases| && Reserved(BatchCase(cases[i]), 1) in d.paths ==> Published(BatchCase(cases[i]), 1) in d.paths
  }

  lemma TickPreparing(s: State, pid: nat, e: Env)
    requires pid < |s.procs| && s.procs[pid].phase.Preparing?
    ensures var p := s.procs[pid];
            Step(s, Tick(pid, e)) == State(s.disk, s.procs[pid := Prepare(s.disk, p, p.phase.next, p.phase.unsaved, e)], s.sent)
  {
    hide Prepare;
    assert s.sent + [] == s.sent;
  }

  /** The preparation keeps exactly the cases without a row. */
  lemma {:induction false} PreparesAll(s: State, pid: nat) returns (g: seq<Label>)
    requires pid < |s.procs| && s.procs[pid].phase.Preparing? && s.procs[pid].phase.next <= |s.procs[pid].todo|
    requires s.procs[pid].phase.unsaved == Missing(s.disk, s.procs[pid].todo[..s.procs[pid].phase.next])
    requires Settleable(s.disk, s.procs[pid].todo)
    ensures OwnTicks(g, pid)
    ensures var p := s.procs[pid];
            Run(s, g) == s.(procs := s.procs[pid := p.(todo := Missing(s.disk, p.todo), phase := Deciding)])
    decreases |s.procs[pid].todo| - s.procs[pid].phase.next
  {
    hide Run, Step;
    var p, next := s.procs[pid], s.procs[pid].phase.next;
    var l := Tick(pid, Fine(0, 0, Other));
    TickPreparing(s, pid, l.env);
    var t := Step(s, l);
    if next == |p.todo| {
      assert p.todo[..next] == p.todo;
      g := [l];
      RunFirst(s, l, []);
      EmptyRun(t);
    } else {
      assert p.todo[..next + 1][..next] == p.todo[..next];
      var g2 := PreparesAll(t, pid);
      g := [l] + g2;
      RunFirst(s, l, g2);
    }
  }

  /** A BM25 run over cases of which some have their row and the others no file has a continuation of its own steps
      that sends exactly the others, once each and in order, and publishes a row with a dispatch for each. */
  lemma Bm25RunCompletes(s: State, cases: seq<string>, outcome: Outcome) returns (g: seq<Label>)
    requires Invariant(s) && Distinct(cases) && Settleable(s.disk, cases)
    ensures OwnTicks(g, |s.procs|)
    ensures var kind, pid := Bm25(cases), |s.procs|;
            var t := Run(s, [Spawn(kind)] + g);
            && t.sent == s.sent + Dispatches(kind, Missing(s.disk, cases), pid)
            && (forall i :: 0 <= i < |cases| ==> Readable(t.disk, Published(BatchCase(cases[i]), 1)))
            && AllStand(t.disk, kind, Missing(s.disk, cases), outcome)
            && OnlyNames(s, t, kind, Missing(s.disk, cases)) && |t.procs| == pid + 1 && t.procs[pid].phase.Stopped?
  {
    hide Run, Invariant, Stands, Decide;
    var kind, pid := Bm25(cases), |s.procs|;
    var l := Spawn(kind);
    StepKeepsInvariant(s, l);
    var t := Step(s, l);
    assert cases[..0] == [];
    var g1 := PreparesAll(t, pid);
    var u := Run(t, g1);
    RunKeepsInvariant(t, g1);
    MissingMeans(s.disk, cases);
    MissingUnfiled(s.disk, kind, cases);
    hide Step;
    var g2 := SendsAll(u, pid, outcome);
    g := g1 + g2;
    RunFirst(s, l, g);
    RunConcat(t, g1, g2);
    RunKeepsInvariant(u, g2);
    NamesGrow(u, g2);
    AllReadable(s, Run(u, g2), kind, cases, outcome);
  }

  lemma MissingUnfiled(d: Disk, kind: Kind, cases: seq<string>)
    requires kind.Bm25? && Distinct(cases) && Settleable(d, cases)
    ensures forall i :: 0 <= i < |Missing(d, cases)| ==> Unfiled(d, NameOf(kind, Missing(d, cases)[i]))
  {
    MissingMeans(d, cases);
    var missing := Missing(d, cases);
    forall i | 0 <= i < |missing| ensures Unfiled(d, NameOf(kind, missing[i])) {
      assert missing[i] in missing;
      var j :| 0 <= j < |cases| && cases[j] == missing[i];
    }
  }

  lemma AllReadable(s: State, u: State, kind: Kind, cases: seq<string>, outcome: Outcome)
    requires Invariant(u) && Names(s) <= Names(u) && Distinct(cases) && kind.Bm25?
    requires AllStand(u.disk, kind, Missing(s.disk, cases), outcome)
    ensures forall i :: 0 <= i < |cases| ==> Readable(u.disk, Published(BatchCase(cases[i]), 1))
  {
    MissingMeans(s.disk, cases);
    var missing := Missing(s.disk, cases);
    forall i | 0 <= i < |cases| ensures Readable(u.disk, Published(BatchCase(cases[i]), 1)) {
      var path := Published(BatchCase(cases[i]), 1);
      if path in s.disk.paths {
        assert path in Names(s) && path in Names(u);
        assert PathOk(u.disk, u.sent, path);
      } else {
        assert cases[i] in missing;
        var j :| 0 <= j < |missing| && missing[j] == cases[i];
        assert Stands(u.disk, SentRow(kind, missing[j], outcome));
      }
    }
  }

  /** An unresolved reservation, or a row of another run, ends a BM25 run before it sends anything. */
  lemma PreparationIff(s: State, pid: nat, e: Env)
    requires pid < |s.procs| && s.procs[pid].phase.Preparing? && s.procs[pid].phase.next < |s.procs[pid].todo|
    ensures var p, t := s.procs[pid], Step(s, Tick(pid, e));
            var c := BatchCase(p.todo[p.phase.next]);
            && t.disk == s.disk && t.sent == s.sent
            && (t.procs[pid].phase.Stopped? <==>
                  if Published(c, 1) in s.disk.paths then !e.identityOk else Reserved(c, 1) in s.disk.paths)
            && (!t.procs[pid].phase.Stopped? ==> t.procs[pid].phase.Preparing? && t.procs[pid].phase.next == p.phase.next + 1)
  {
    TickPreparing(s, pid, e);
  }

  // ---------- canaries ----------

  /** Canaries with the first one at the head, or behind its published pass, are all sent and published as passed. */
  lemma CanariesAreSent(s: State, cases: seq<string>) returns (g: seq<Label>)
    requires Invariant(s) && Distinct(cases) && forall i :: 0 <= i < |cases| ==> Unfiled(s.disk, CanaryCase(cases[i]))
    requires cases != [] && (CanaryCase(cases[0]) == FIRST_CANARY || FirstPassed(s.disk))
    ensures OwnTicks(g, |s.procs|)
    ensures var kind, pid := Canary(cases), |s.procs|;
            var t := Run(s, [Spawn(kind)] + g);
            && t.sent == s.sent + Dispatches(kind, cases, pid)
            && AllStand(t.disk, kind, cases, Answered)
            && OnlyNames(s, t, kind, cases) && |t.procs| == pid + 1 && t.procs[pid].phase.Stopped?
  {
    hide Run, Invariant, Stands, Decide;
    FirstPassedMeans(s);
    hide FirstPassed;
    var kind, pid := Canary(cases), |s.procs|;
    var l := Spawn(kind);
    StepKeepsInvariant(s, l);
    var t := Step(s, l);
    assert MayGo(t, t.procs[pid]);
    hide Step, FirstCanaryPassed;
    g := SendsAll(t, pid, Answered);
    RunFirst(s, l, g);
  }

  /** A canary is taken up exactly when it is the first, or the first one has passed and the identity is right. */
  lemma CanaryIsTakenUpIff(s: State, pid: nat, e: Env)
    requires Invariant(s) && pid < |s.procs| && s.procs[pid].kind.Canary? && s.procs[pid].phase.Deciding? && s.procs[pid].todo != []
    ensures var p, t := s.procs[pid], Step(s, Tick(pid, e));
            var c := CanaryCase(p.todo[0]);
            && t.procs[pid] == p.(phase := if c == FIRST_CANARY || (FirstPassed(s.disk) && e.identityOk) then Reserve(c, 1) else Stopped)
            && t.disk == s.disk && t.sent == s.sent
  {
    FirstPassedMeans(s);
    hide FirstPassed, FirstCanaryPassed, Invariant;
    TickDeciding(s, pid, e);
  }

  // ---------- collections ----------

  /** The newest row of the case is complete and may be replaced. */
  ghost predicate Replaces(d: Disk, id: string, n: nat) {
    var q := Published(BatchCase(id), n);
    && n > 0 && q in d.paths && (forall m: nat :: Published(BatchCase(id), m) in d.paths ==> m <= n)
    && d.paths[q] < |d.files| && d.files[d.paths[q]].written == d.files[d.paths[q]].size
    && d.files[d.paths[q]].doc.Observation? && d.files[d.paths[q]].doc.row.outcome == Replaceable
  }

  /** A new process works through all the cases it is given; only a reviewed selection of a case that is not in the dataset,
      or whose newest row may not be replaced, keeps a collection from starting. */
  lemma StartsIff(s: State, kind: Kind)
    requires Invariant(s)
    ensures var t := Step(s, Spawn(kind));
            var cases := if kind.Collect? then kind.data.cases else kind.cases;
            && t.disk == s.disk && t.sent == s.sent && |t.procs| == |s.procs| + 1 && t.procs[..|s.procs|] == s.procs
            && t.procs[|s.procs|] == Process(kind, cases, {}, t.procs[|s.procs|].phase)
            && (kind.Bm25? ==> t.procs[|s.procs|].phase == Preparing(0, []))
            && (kind.Canary? ==> t.procs[|s.procs|].phase == Deciding)
            && (kind.Collect? ==>
                  t.procs[|s.procs|].phase ==
                    if kind.selected.Some? && !(kind.selected.value in cases && exists n :: Replaces(s.disk, kind.selected.value, n))
                    then Stopped else Deciding)
  {
    if kind.Collect? && kind.selected.Some? { SelectableMeans(s, kind.selected.value); }
    hide Invariant, Selectable, Replaces;
  }

  lemma SelectableMeans(s: State, id: string)
    requires Invariant(s)
    ensures Selectable(s.disk, id) <==> exists n :: Replaces(s.disk, id, n)
  {
    var c := BatchCase(id);
    if Selectable(s.disk, id) {
      var p :| p in s.disk.paths && p.Published? && p.caseId == c && IsLatest(s.disk, c, p.attempt) && RowIs(s.disk, c, p.attempt, Replaceable);
      assert p == Published(c, p.attempt);
      assert PathOk(s.disk, s.sent, p);
      forall m: nat | Published(c, m) in s.disk.paths ensures m <= p.attempt { assert Published(c, m).attempt <= p.attempt; }
      assert Replaces(s.disk, id, p.attempt);
    }
    if n :| Replaces(s.disk, id, n) {
      var p := Published(c, n);
      assert IsLatest(s.disk, c, n) && RowIs(s.disk, c, n, Replaceable);
      assert p in s.disk.paths && p.Published? && p.caseId == c && p.attempt == n;
    }
  }

  /** What a collection does with the next case, by the newest row of the case and the pause. */
  lemma CollectionDecides(s: State, pid: nat, e: Env)
    requires Invariant(s) && pid < |s.procs| && s.procs[pid].kind.Collect? && s.procs[pid].phase.Deciding? && s.procs[pid].todo != []
    requires IsLatest(s.disk, BatchCase(s.procs[pid].todo[0]), e.latest)
    ensures var p, t := s.procs[pid], Step(s, Tick(pid, e));
            var y, p' := p.todo[0], t.procs[pid];
            var same := e.latest == 0 || e.identityOk;
            && t.disk == s.disk && t.sent == s.sent
            && (Working(p'.phase) <==> same && CallsFor(s.disk, p, e.latest) && !e.paused)
            && (p'.phase.Deciding? <==> same && !CallsFor(s.disk, p, e.latest))
            && (Working(p'.phase) || p'.phase.Deciding? || p'.phase.Stopped?)
            && (Working(p'.phase) ==> p'.phase.caseId == BatchCase(y) && p'.phase.attempt == e.latest + 1
                                      && (p'.phase.Reserving? <==> !(y in p.kind.data.parents && p.kind.data.parents[y] !in p.good)))
            && (p'.phase.Deciding? ==> p'.todo == p.todo[1..] && p'.good - {y} == p.good - {y}
                                       && (y in p'.good <==> p.kind.selected == Some(y) || RowIs(s.disk, BatchCase(y), e.latest, Answered)))
  {
    var p := s.procs[pid];
    assert NameOf(p.kind, p.todo[0]) == BatchCase(p.todo[0]);
    TickDeciding(s, pid, e);
    if e.latest > 0 { NewestIsReadable(s, BatchCase(p.todo[0]), e.latest); }
    if e.latest == 0 && RowIs(s.disk, BatchCase(p.todo[0]), 0, Answered) { PublishedAttempt(s, BatchCase(p.todo[0]), 0); }
    hide Invariant, IsLatest, Step;
  }

  /** None of the cases has a file. */
  predicate Untouched(d: Disk, ids: seq<string>) {
    forall q :: q in d.paths && q.caseId.BatchCase? ==> q.caseId.id !in ids
  }

  /** A collection over cases without files, each of which is answered, sends them all, once each and in the order of
      the dataset, the follow-ups included. */
  lemma {:induction false} CollectsRest(s: State, pid: nat, data: Dataset) returns (g: seq<Label>)
    requires Invariant(s) && Loadable(data) && pid < |s.procs| && s.procs[pid].kind.Collect? && s.procs[pid].kind.data == data
    requires s.procs[pid].kind.selected.None? && s.procs[pid].phase.Deciding? && Rest(s.procs[pid].todo, data.cases)
    requires Untouched(s.disk, s.procs[pid].todo) && forall x :: x in data.cases ==> x in s.procs[pid].todo || x in s.procs[pid].good
    ensures OwnTicks(g, pid)
    ensures var p, t := s.procs[pid], Run(s, g);
            && t.sent == s.sent + Dispatches(p.kind, p.todo, pid) && AllStand(t.disk, p.kind, p.todo, Answered)
            && |t.procs| == |s.procs| && t.procs[pid].phase.Stopped?
    decreases |s.procs[pid].todo|
  {
    hide Run, Step, Invariant, Stands, Decide, Loadable, HasRow, IsLatest, RowIs;
    var p := s.procs[pid];
    if p.todo == [] {
      var l := Tick(pid, Fine(0, 0, Other));
      TickDeciding(s, pid, l.env);
      NothingLeft(s.disk, p, l.env);
      g := [l];
      RunFirst(s, l, []);
      EmptyRun(Step(s, l));
      assert s.sent + [] == s.sent;
    } else {
      UntouchedCallsFor(s, p);
      ParentIsGood(data, p);
      var g1 := TakesUpCase(s, pid, 0, Answered);
      var t := Run(s, g1);
      RunKeepsInvariant(s, g1);
      AfterNext(s, t, pid, data);
      var g2 := CollectsRest(t, pid, data);
      g := g1 + g2;
      RunConcat(s, g1, g2);
      StandsThroughout(t, g2, SentRow(p.kind, p.todo[0], Answered));
      var u := Run(t, g2);
      assert Dispatches(p.kind, p.todo, pid) == [Dispatch(BatchCase(p.todo[0]), 1, pid)] + Dispatches(p.kind, p.todo[1..], pid);
    }
  }

  lemma UntouchedCallsFor(s: State, p: Process)
    requires p.kind.Collect? && p.kind.selected.None? && p.todo != [] && Untouched(s.disk, p.todo)
    ensures CallsFor(s.disk, p, 0) && AllPublished(s, BatchCase(p.todo[0]))
  {
  }

  lemma ParentIsGood(data: Dataset, p: Process)
    requires Loadable(data) && p.kind.Collect? && p.kind.data == data && Rest(p.todo, data.cases) && p.todo != []
    requires forall x :: x in data.cases ==> x in p.todo || x in p.good
    ensures !MissesParent(p, p.todo[0])
  {
    if p.todo[0] in data.parents {
      ParentIsAhead(data, p.todo[0]);
      ParentIsBehind(data, p.todo);
    }
  }

  lemma AfterNext(s: State, t: State, pid: nat, data: Dataset)
    requires pid < |s.procs| && s.procs[pid].kind.Collect? && s.procs[pid].todo != [] && Passed(s, t, pid)
    requires Loadable(data) && Rest(s.procs[pid].todo, data.cases) && Untouched(s.disk, s.procs[pid].todo)
    requires s.procs[pid].todo[0] in t.procs[pid].good
    requires forall x :: x in data.cases ==> x in s.procs[pid].todo || x in s.procs[pid].good
    ensures Rest(t.procs[pid].todo, data.cases) && Untouched(t.disk, t.procs[pid].todo)
    ensures forall x :: x in data.cases ==> x in t.procs[pid].todo || x in t.procs[pid].good
  {
    hide HasRow;
    var p, y := s.procs[pid], s.procs[pid].todo[0];
    RestDistinct(data, p.todo);
    assert p.todo == [y] + p.todo[1..];
    forall x | x in data.cases ensures x in t.procs[pid].todo || x in t.procs[pid].good {
      if x != y && x in p.good { assert x in p.good - {y}; }
    }
  }

  lemma CollectionSendsAll(s: State, resume: bool, data: Dataset) returns (g: seq<Label>)
    requires Invariant(s) && Loadable(data) && Untouched(s.disk, data.cases)
    ensures OwnTicks(g, |s.procs|)
    ensures var kind, pid := Collect(resume, data, None), |s.procs|;
            var t := Run(s, [Spawn(kind)] + g);
            && t.sent == s.sent + Dispatches(kind, data.cases, pid) && AllStand(t.disk, kind, data.cases, Answered)
            && |t.procs| == pid + 1 && t.procs[pid].phase.Stopped?
  {
    hide Run, Invariant, Stands, Loadable;
    var l := Spawn(Collect(resume, data, None));
    StepKeepsInvariant(s, l);
    g := CollectsRest(Step(s, l), |s.procs|, data);
    RunFirst(s, l, g);
  }
}
