/** Admission to a free plan with persisted counters: every admitted request was counted in the file first, a
    quota answer pauses admission until the next UTC day, and both survive restarts and failed saves. */
module FreeQuota {
  import opened Wrappers

  const DAY := 86400
  const PREFLIGHT_SECONDS := 900
  const MAX_GENERATIONS := 70
  const MAX_INPUTS := 2500
  const DAILY_NEURONS := 10000

  function Day(instant: int): int { instant / DAY }

  // ---------- what is checked before the guard exists ----------

  /** The verified state of the plan. `checkedAt` is an instant in seconds, read at `offset` seconds from UTC;
      `offset` is missing when the time stamp carries none. */
  datatype Preflight = Preflight(plan: string, checkedAt: int, offset: Option<int>, neuronsUsed: int, dailyLimit: int,
                                 modelsFreeEligible: bool, noPaidGateway: bool, evidence: string, accountId: string)

  /** The calendar day on the clock the time stamp was written by. */
  function CheckedDay(p: Preflight): int {
    Day(p.checkedAt + if p.offset.Some? then p.offset.value else 0)
  }

  predicate FreshPreflight(p: Preflight, now: int) {
    && p.plan == "Workers Free" && p.offset.Some? && CheckedDay(p) == Day(now)
    && 0 <= now - p.checkedAt <= PREFLIGHT_SECONDS
    && 0 <= p.neuronsUsed < DAILY_NEURONS && p.dailyLimit == DAILY_NEURONS
    && p.modelsFreeEligible && p.noPaidGateway && p.evidence != ""
  }

  // ---------- the counters ----------

  datatype Stop = RequestLimit | FreeAccessDenied | QuotaPaused | PreflightExpired
  datatype Counters = Counters(identity: string, generations: int, inputs: int, pausedUntil: Option<int>, stop: Option<Stop>)

  function FreshCounters(identity: string): Counters { Counters(identity, 0, 0, None, None) }

  /** What a restart makes of the counters it finds. */
  function Resumed(s: Counters, now: int): Counters {
    var unexpired := if s.stop == Some(PreflightExpired) then s.(stop := None) else s;
    if unexpired.pausedUntil.Some? && now >= unexpired.pausedUntil.value then
      unexpired.(pausedUntil := None, stop := if unexpired.stop == Some(QuotaPaused) then None else unexpired.stop)
    else unexpired
  }

  // ---------- requests ----------

  /** The parts of a request that admission depends on. `texts` is the list of documents or queries when it is a
      list of strings. */
  datatype Payload = Payload(texts: Option<seq<string>>, model: Option<string>, maxTokens: Option<int>)
  datatype Request = Request(isPost: bool, host: string, scheme: string, query: string, headers: seq<string>, path: string, payload: Payload)

  datatype Amount = Generation | Inputs(count: nat)
  datatype Refusal = Stopped(stop: Stop) | EndpointNotApproved | EmbeddingInvalid | SaveFailed

  predicate Gateway(header: string) { "cf-aig" <= header }

  function Base(account: string): string { "/client/v4/accounts/" + account + "/ai" }

  /** What an approved request will use. */
  function AmountOf(r: Request, account: string): Result<Amount, Refusal> {
    if !r.isPost || r.host != "api.cloudflare.com" || r.scheme != "https" || r.query != "" then Failure(EndpointNotApproved)
    else if exists i :: 0 <= i < |r.headers| && Gateway(r.headers[i]) then Failure(EndpointNotApproved)
    else if r.path == Base(account) + "/run/@cf/qwen/qwen3-embedding-0.6b" then
      if r.payload.texts.Some? && 1 <= |r.payload.texts.value| <= 32 then Success(Inputs(|r.payload.texts.value|))
      else Failure(EmbeddingInvalid)
    else if r.path == Base(account) + "/v1/chat/completions" && r.payload.model == Some("@cf/openai/gpt-oss-20b") && r.payload.maxTokens == Some(1024) then
      Success(Generation)
    else Failure(EndpointNotApproved)
  }

  predicate Fits(s: Counters, a: Amount) {
    match a
    case Generation => s.generations + 1 <= MAX_GENERATIONS
    case Inputs(n) => s.inputs + n <= MAX_INPUTS
  }

  function Counted(s: Counters, a: Amount): Counters {
    (match a
     case Generation => s.(generations := s.generations + 1)
     case Inputs(n) => s.(inputs := s.inputs + n)).(pausedUntil := None, stop := None)
  }

  // ---------- one step of the guard, its state and the file ----------

  datatype Guard = Guard(state: Counters, preflight: Preflight)

  /** The file after a save that may fail; a failed save leaves the old content. */
  function SaveTo(disk: Option<Counters>, s: Counters, saved: bool): Option<Counters> {
    if saved then Some(s) else disk
  }

  function StartStep(disk: Option<Counters>, identity: string, p: Preflight, now: int, saved: bool): (Option<Counters>, Option<Guard>) {
    if !FreshPreflight(p, now) then (disk, None)
    else
      var found := if disk.Some? then disk.value else FreshCounters(identity);
      if found.identity != identity || found.generations < 0 || found.inputs < 0 then (disk, None)
      else (SaveTo(disk, Resumed(found, now), saved), if saved then Some(Guard(Resumed(found, now), p)) else None)
  }

  function BeforeStep(g: Guard, disk: Option<Counters>, r: Request, now: int, saved: bool): (Guard, Option<Counters>, Result<Amount, Refusal>) {
    var s := g.state;
    if s.stop == Some(RequestLimit) || s.stop == Some(FreeAccessDenied) then (g, disk, Failure(Stopped(s.stop.value)))
    else if s.pausedUntil.Some? && now < s.pausedUntil.value then (g, disk, Failure(Stopped(QuotaPaused)))
    else if Day(now) != CheckedDay(g.preflight) then
      var t := s.(stop := Some(PreflightExpired));
      (g.(state := t), SaveTo(disk, t, saved), Failure(if saved then Stopped(PreflightExpired) else SaveFailed))
    else
      var a := AmountOf(r, g.preflight.accountId);
      if a.Failure? then (g, disk, Failure(a.error))
      else if !Fits(s, a.value) then
        var t := s.(stop := Some(RequestLimit));
        (g.(state := t), SaveTo(disk, t, saved), Failure(if saved then Stopped(RequestLimit) else SaveFailed))
      else
        var t := Counted(s, a.value);
        (g.(state := t), SaveTo(disk, t, saved), if saved then Success(a.value) else Failure(SaveFailed))
  }

  function Answered(s: Counters, status: int, now: int): Counters {
    if status == 429 then s.(pausedUntil := Some((Day(now) + 1) * DAY), stop := Some(QuotaPaused))
    else if status == 402 || status == 403 then s.(pausedUntil := None, stop := Some(FreeAccessDenied))
    else s
  }

  function ResponseStep(g: Guard, disk: Option<Counters>, status: int, now: int, saved: bool): (Guard, Option<Counters>) {
    if status !in {402, 403, 429} then (g, disk)
    else (g.(state := Answered(g.state, status, now)), SaveTo(disk, Answered(g.state, status, now), saved))
  }

  // ---------- the objects ----------

  class CounterFile {
    var content: Option<Counters>

    constructor ()
      ensures content == None
    {
      content := None;
    }
  }

  class FreeOnlyGuard {
    const file: CounterFile
    const preflight: Preflight
    var state: Counters

    function Value(): Guard
      reads this
    {
      Guard(state, preflight)
    }

    constructor (file: CounterFile, preflight: Preflight, state: Counters)
      ensures this.file == file && Value() == Guard(state, preflight)
    {
      this.file, this.preflight, this.state := file, preflight, state;
    }

    /** Construction that refuses; `saved` says whether its save goes through. */
    static method Open(file: CounterFile, identity: string, preflight: Preflight, now: int, saved: bool) returns (r: Option<FreeOnlyGuard>)
      modifies file
      ensures (file.content, if r.Some? then Some(r.value.Value()) else None) == StartStep(old(file.content), identity, preflight, now, saved)
      ensures r.Some? ==> fresh(r.value) && r.value.file == file
    {
      if !FreshPreflight(preflight, now) { return None; }
      var state := if file.content.Some? then file.content.value else FreshCounters(identity);
      if state.identity != identity { return None; }
      if state.generations < 0 || state.inputs < 0 { return None; }
      if state.stop == Some(PreflightExpired) { state := state.(stop := None); }
      if state.pausedUntil.Some? && now >= state.pausedUntil.value {
        state := state.(pausedUntil := None);
        if state.stop == Some(QuotaPaused) { state := state.(stop := None); }
      }
      var guard := new FreeOnlyGuard(file, preflight, state);
      var ok := guard.Save(saved);
      if !ok { return None; }
      return Some(guard);
    }

    /** The file is replaced as a whole or not at all. */
    method Save(saved: bool) returns (ok: bool)
      modifies file
      ensures ok == saved && file.content == SaveTo(old(file.content), state, saved)
    {
      if saved { file.content := Some(state); }
      return saved;
    }

    method BeforeRequest(request: Request, now: int, saved: bool) returns (r: Result<Amount, Refusal>)
      modifies this, file
      ensures (Value(), file.content, r) == BeforeStep(old(Value()), old(file.content), request, now, saved)
    {
      if state.stop == Some(RequestLimit) || state.stop == Some(FreeAccessDenied) { return Failure(Stopped(state.stop.value)); }
      if state.pausedUntil.Some? && now < state.pausedUntil.value { return Failure(Stopped(QuotaPaused)); }
      if Day(now) != CheckedDay(preflight) {
        state := state.(stop := Some(PreflightExpired));
        var ok := Save(saved);
        return Failure(if ok then Stopped(PreflightExpired) else SaveFailed);
      }
      var amount := AmountOf(request, preflight.accountId);
      if amount.Failure? { return Failure(amount.error); }
      if !Fits(state, amount.value) {
        state := state.(stop := Some(RequestLimit));
        var ok := Save(saved);
        return Failure(if ok then Stopped(RequestLimit) else SaveFailed);
      }
      match amount.value {
        case Generation => state := state.(generations := state.generations + 1);
        case Inputs(n) => state := state.(inputs := state.inputs + n);
      }
      state := state.(pausedUntil := None, stop := None);
      var ok := Save(saved);
      return if ok then Success(amount.value) else Failure(SaveFailed);
    }

    method AfterResponse(status: int, now: int, saved: bool)
      modifies this, file
      ensures (Value(), file.content) == ResponseStep(old(Value()), old(file.content), status, now, saved)
    {
      if status in {402, 403, 429} {
        var tomorrow := (Day(now) + 1) * DAY;
        state := state.(pausedUntil := if status == 429 then Some(tomorrow) else None,
                        stop := Some(if status == 429 then QuotaPaused else FreeAccessDenied));
        var _ := Save(saved);
      }
    }
  }

  // ---------- runs over any number of processes ----------

  /** The file, the guard of the process that is running, if any, and how many of the requests it has let through
      are still unanswered. */
  datatype World = World(disk: Option<Counters>, guard: Option<Guard>, pending: nat)

  /** A response reaches the guard only for a request that the guard has let through. */
  predicate Delivers(w: World) { w.guard.Some? && w.pending > 0 }

  datatype Event =
    | Start(identity: string, preflight: Preflight, now: int, saved: bool)
    | Before(request: Request, now: int, saved: bool)
    | Response(status: int, now: int, saved: bool)
    | Exit

  /** The new world, and what was admitted. */
  function Step(w: World, e: Event): (World, Option<Amount>) {
    match e
    case Exit => (w.(guard := None, pending := 0), None)
    case Start(identity, p, now, saved) =>
      var (disk, guard) := StartStep(w.disk, identity, p, now, saved);
      (World(disk, guard, 0), None)
    case Before(r, now, saved) =>
      if w.guard.None? then (w, None)
      else
        var (g, disk, reply) := BeforeStep(w.guard.value, w.disk, r, now, saved);
        (World(disk, Some(g), w.pending + if reply.Success? then 1 else 0), if reply.Success? then Some(reply.value) else None)
    case Response(status, now, saved) =>
      if !Delivers(w) then (w, None)
      else
        var (g, disk) := ResponseStep(w.guard.value, w.disk, status, now, saved);
        (World(disk, Some(g), w.pending - 1), None)
  }

  const NOTHING := World(None, None, 0)

  function Run(events: seq<Event>): World
    decreases |events|
  {
    if events == [] then NOTHING else Step(Run(events[..|events| - 1]), events[|events| - 1]).0
  }

  function Admitted(events: seq<Event>, i: nat): Option<Amount>
    requires i < |events|
  {
    Step(Run(events[..i]), events[i]).1
  }

  // ---------- what a request asks for ----------

  /** A POST to the provider itself over a verified connection, without a query or a gateway header. */
  predicate Direct(r: Request) {
    && r.isPost && r.host == "api.cloudflare.com" && r.scheme == "https" && r.query == ""
    && forall i :: 0 <= i < |r.headers| ==> !("cf-aig" <= r.headers[i])
  }

  predicate ForEmbeddings(r: Request, account: string) {
    r.path == Base(account) + "/run/@cf/qwen/qwen3-embedding-0.6b"
  }

  predicate ForChat(r: Request, account: string) {
    r.path == Base(account) + "/v1/chat/completions"
  }

  /** The number of texts of a request. */
  function Texts(r: Request): nat {
    if r.payload.texts.Some? then |r.payload.texts.value| else 0
  }

  /** The counters leave room for the request: its texts, or one generation. */
  predicate Approved(s: Counters, r: Request, account: string) {
    Direct(r)
    && if ForEmbeddings(r, account) then 1 <= Texts(r) <= 32 && s.inputs + Texts(r) <= 2500
       else ForChat(r, account) && r.payload.model == Some("@cf/openai/gpt-oss-20b") && r.payload.maxTokens == Some(1024)
            && s.generations + 1 <= 70
  }

  /** A request is admitted exactly when the guard runs on its preflight's day without a lasting stop or an unexpired
      pause, the request is approved and fits the budget, and the counters are saved. */
  lemma AdmittedIff(w: World, r: Request, now: int, saved: bool)
    ensures Step(w, Before(r, now, saved)).1.Some? <==>
              && w.guard.Some? && saved
              && w.guard.value.state.stop != Some(RequestLimit) && w.guard.value.state.stop != Some(FreeAccessDenied)
              && (w.guard.value.state.pausedUntil.Some? ==> w.guard.value.state.pausedUntil.value <= now)
              && Day(now) == CheckedDay(w.guard.value.preflight)
              && Approved(w.guard.value.state, r, w.guard.value.preflight.accountId)
  {
    hide Day, CheckedDay, Base;
  }

  /** An admitted embedding request raises the inputs by exactly the number of its texts, an admitted chat request the
      generations by one; nothing else is counted, and the file holds the new counters. */
  lemma AdmittedIsCounted(w: World, r: Request, now: int, saved: bool)
    requires Step(w, Before(r, now, saved)).1.Some?
    ensures var (s, t) := (w.guard.value.state, Step(w, Before(r, now, saved)).0);
            var embeds := ForEmbeddings(r, w.guard.value.preflight.accountId);
            var s' := Counters(s.identity, s.generations + (if embeds then 0 else 1), s.inputs + (if embeds then Texts(r) else 0), None, None);
            && t.guard == Some(Guard(s', w.guard.value.preflight)) && t.disk == Some(s') && t.pending == w.pending + 1
            && Step(w, Before(r, now, saved)).1 == Some(if embeds then Inputs(Texts(r)) else Generation)
  {
    hide Day, CheckedDay, Base;
  }

  /** A refused request changes no counter; only an expired preflight or a spent budget leaves a stop behind. */
  lemma RefusedIsNotCounted(g: Guard, disk: Option<Counters>, r: Request, now: int, refusal: Refusal)
    requires BeforeStep(g, disk, r, now, true).2 == Failure(refusal)
    ensures var (g', disk', _) := BeforeStep(g, disk, r, now, true);
            if refusal == Stopped(PreflightExpired) || (refusal == Stopped(RequestLimit) && g.state.stop != Some(RequestLimit))
            then g' == g.(state := g.state.(stop := Some(refusal.stop))) && disk' == Some(g'.state)
            else g' == g && disk' == disk
  {
    hide Day, CheckedDay, Base;
  }

  /** A call that has something to save changes the running guard all the same when the save fails; the file keeps its old
      content, and the failed save is what the caller sees. Any other call does not notice. */
  lemma UnsavedMeans(g: Guard, disk: Option<Counters>, r: Request, now: int)
    ensures var (g', disk', answer) := BeforeStep(g, disk, r, now, true);
            var recorded := answer.Success? || answer == Failure(Stopped(PreflightExpired))
                            || (answer == Failure(Stopped(RequestLimit)) && g.state.stop != Some(RequestLimit));
            BeforeStep(g, disk, r, now, false) == if recorded then (g', disk, Failure(SaveFailed)) else (g', disk', answer)
  {
    hide Day, CheckedDay, Base, Direct, ForEmbeddings, ForChat;
  }

  /** Why a request is refused when its counters can be saved. */
  lemma RefusalMeans(g: Guard, disk: Option<Counters>, r: Request, now: int, refusal: Refusal)
    requires BeforeStep(g, disk, r, now, true).2 == Failure(refusal)
    ensures var s := g.state;
            var blocked := s.stop == Some(RequestLimit) || s.stop == Some(FreeAccessDenied);
            var paused := s.pausedUntil.Some? && now < s.pausedUntil.value;
            var running := !blocked && !paused && Day(now) == CheckedDay(g.preflight);
            var embeds := ForEmbeddings(r, g.preflight.accountId);
            var chats := ForChat(r, g.preflight.accountId) && r.payload.model == Some("@cf/openai/gpt-oss-20b") && r.payload.maxTokens == Some(1024);
            && (refusal == Stopped(FreeAccessDenied) <==> s.stop == Some(FreeAccessDenied))
            && (refusal == Stopped(QuotaPaused) <==> !blocked && paused)
            && (refusal == Stopped(PreflightExpired) <==> !blocked && !paused && !running)
            && (refusal == EmbeddingInvalid <==> running && Direct(r) && embeds && !(1 <= Texts(r) <= 32))
            && (refusal == EndpointNotApproved <==> running && !(Direct(r) && (embeds || chats)))
            && (refusal == Stopped(RequestLimit) <==>
                  (s.stop == Some(RequestLimit)
                   || (running && Direct(r)
                       && if embeds then 1 <= Texts(r) <= 32 && s.inputs + Texts(r) > 2500 else chats && s.generations + 1 > 70)))
  {
    hide Day, CheckedDay, Base;
  }

  /** A guard starts exactly on a fresh, verified preflight of the free plan and on counters of its own run, saved; it
      keeps the counts, forgets an expired preflight and a pause that is over, and keeps every other stop. */
  lemma StartIff(w: World, identity: string, p: Preflight, now: int, saved: bool)
    ensures var t := Step(w, Start(identity, p, now, saved)).0;
            var s := if w.disk.Some? then w.disk.value else Counters(identity, 0, 0, None, None);
            var over := s.pausedUntil.Some? && s.pausedUntil.value <= now;
            var lifted := s.stop == Some(PreflightExpired) || (s.stop == Some(QuotaPaused) && over);
            var accepted := p.plan == "Workers Free" && p.offset.Some? && (p.checkedAt + p.offset.value) / 86400 == now / 86400
                            && p.checkedAt <= now <= p.checkedAt + 900 && 0 <= p.neuronsUsed < 10000 && p.dailyLimit == 10000
                            && p.modelsFreeEligible && p.noPaidGateway && p.evidence != ""
                            && s.identity == identity && s.generations >= 0 && s.inputs >= 0;
            && (t.guard.Some? <==> accepted && saved)
            && (t.guard.Some? ==>
                  && t.guard.value.preflight == p && t.disk == Some(t.guard.value.state) && t.pending == 0
                  && t.guard.value.state == s.(pausedUntil := if over then None else s.pausedUntil, stop := if lifted then None else s.stop))
            && (t.guard.None? ==> t.disk == w.disk)
  {
  }

  /** A delivered 429 pauses until the first instant of the next UTC day, a 402 or 403 denies, and no other response
      changes anything. */
  lemma ResponseMeans(w: World, status: int, now: int, saved: bool)
    requires Delivers(w)
    ensures var t := Step(w, Response(status, now, saved)).0;
            t.guard.Some?
            && var s, s' := w.guard.value.state, t.guard.value.state;
            && t.guard.value.preflight == w.guard.value.preflight && t.pending == w.pending - 1
            && s'.identity == s.identity && s'.generations == s.generations && s'.inputs == s.inputs
            && (status == 429 ==> s'.stop == Some(QuotaPaused) && s'.pausedUntil.Some?
                                  && s'.pausedUntil.value % 86400 == 0 && now < s'.pausedUntil.value <= now + 86400)
            && (status == 402 || status == 403 ==> s'.stop == Some(FreeAccessDenied) && s'.pausedUntil == None)
            && (status != 402 && status != 403 && status != 429 ==> s' == s)
            && t.disk == if saved && (status == 402 || status == 403 || status == 429) then Some(s') else w.disk
  {
    NextDay(now);
  }

  lemma NextDay(now: int)
    ensures (Day(now) + 1) * DAY % 86400 == 0 && now < (Day(now) + 1) * DAY <= now + 86400
  {
  }

  /** The event was an admitted embedding request. */
  predicate Embedded(events: seq<Event>, i: nat)
    requires i < |events|
  {
    Admitted(events, i).Some? && events[i].Before? && Run(events[..i]).guard.Some?
    && ForEmbeddings(events[i].request, Run(events[..i]).guard.value.preflight.accountId)
  }

  /** The number of admitted chat requests among the first `n` events. */
  function Generations(events: seq<Event>, n: nat): nat
    requires n <= |events|
  {
    if n == 0 then 0 else Generations(events, n - 1) + if Admitted(events, n - 1).Some? && !Embedded(events, n - 1) then 1 else 0
  }

  /** The number of texts of the admitted embedding requests among the first `n` events. */
  function InputsAdmitted(events: seq<Event>, n: nat): nat
    requires n <= |events|
  {
    if n == 0 then 0 else InputsAdmitted(events, n - 1) + if Embedded(events, n - 1) then Texts(events[n - 1].request) else 0
  }

  // ---------- nothing is admitted uncounted ----------

  predicate Bounded(s: Counters, generations: nat, inputs: nat) {
    generations <= s.generations <= MAX_GENERATIONS && inputs <= s.inputs <= MAX_INPUTS
  }

  /** The file holds at least what was admitted, and the running guard at least what the file holds. */
  predicate Accounted(w: World, generations: nat, inputs: nat) {
    && (w.disk.None? ==> w.guard.None? && generations == 0 && inputs == 0)
    && (w.disk.Some? ==> Bounded(w.disk.value, generations, inputs))
    && (w.guard.Some? ==> w.disk.Some? && w.disk.value.generations <= w.guard.value.state.generations <= MAX_GENERATIONS
                          && w.disk.value.inputs <= w.guard.value.state.inputs <= MAX_INPUTS)
  }

  lemma AccountedStep(w: World, e: Event, generations: nat, inputs: nat)
    requires Accounted(w, generations, inputs)
    ensures var (w', a) := Step(w, e);
            var embeds := e.Before? && w.guard.Some? && ForEmbeddings(e.request, w.guard.value.preflight.accountId);
            Accounted(w', generations + (if a.Some? && !embeds then 1 else 0), inputs + if a.Some? && embeds then Texts(e.request) else 0)
  {
    hide ForEmbeddings, ForChat, Direct, FreshPreflight, CheckedDay, Day;
    if e.Before? && Step(w, e).1.Some? {
      AdmittedIff(w, e.request, e.now, e.saved);
      AdmittedIsCounted(w, e.request, e.now, e.saved);
      hide AmountOf;
    } else {
      hide AmountOf;
    }
  }

  lemma RunStep(events: seq<Event>, n: nat)
    requires n < |events|
    ensures Run(events[..n + 1]) == Step(Run(events[..n]), events[n]).0
  {
    hide Step;
    assert events[..n + 1][..n] == events[..n];
  }

  /** Across restarts, failed saves and any responses, the persisted counters never fall below what was admitted
      and never exceed the limits. */
  lemma {:induction false} CountersCoverAdmissions(events: seq<Event>, n: nat)
    requires n <= |events|
    ensures Accounted(Run(events[..n]), Generations(events, n), InputsAdmitted(events, n))
    ensures Generations(events, n) <= 70 && InputsAdmitted(events, n) <= 2500
    decreases n
  {
    hide Step;
    if n > 0 {
      CountersCoverAdmissions(events, n - 1);
      RunStep(events, n - 1);
      AccountedStep(Run(events[..n - 1]), events[n - 1], Generations(events, n - 1), InputsAdmitted(events, n - 1));
      OnlyRequestsAreAdmitted(Run(events[..n - 1]), events[n - 1]);
    }
  }

  // ---------- a quota answer ends the day ----------

  /** The counters admit nothing on the given day. */
  predicate Blocks(s: Counters, day: int) {
    s.stop == Some(RequestLimit) || s.stop == Some(FreeAccessDenied) || (s.pausedUntil.Some? && s.pausedUntil.value >= (day + 1) * DAY)
  }

  /** The running guard admits nothing on the day; when the answer was saved, the file does not either. */
  predicate Blocked(w: World, day: int, saved: bool) {
    (saved ==> w.disk.Some? && Blocks(w.disk.value, day)) && (w.guard.Some? ==> Blocks(w.guard.value.state, day))
  }

  lemma DayBounds(now: int)
    ensures Day(now) * DAY <= now < (Day(now) + 1) * DAY
  {
  }

  lemma BlockedStep(w: World, e: Event, day: int, saved: bool)
    requires Blocked(w, day, saved) && (!e.Exit? ==> Day(e.now) == day) && (saved || !e.Start?)
    ensures Blocked(Step(w, e).0, day, saved) && Step(w, e).1 == None
  {
    hide AmountOf, FreshPreflight, CheckedDay;
    if !e.Exit? { DayBounds(e.now); }
  }

  /** The clock readings of the events do not decrease. */
  predicate Forward(events: seq<Event>) {
    forall i, j :: 0 <= i < j < |events| && !events[i].Exit? && !events[j].Exit? ==> events[i].now <= events[j].now
  }

  /** A running guard received the quota answer to a request it had let through, whether or not its save went through. */
  predicate QuotaAnswer(events: seq<Event>, i: nat)
    requires i < |events|
  {
    events[i].Response? && events[i].status == 429 && Delivers(Run(events[..i]))
  }

  lemma {:induction false} BlockedThroughout(events: seq<Event>, i: nat, n: nat)
    requires i < n <= |events| && QuotaAnswer(events, i)
    requires events[i].saved || forall k :: i < k < n ==> !events[k].Start?
    requires forall k :: i < k < n && !events[k].Exit? ==> Day(events[k].now) == Day(events[i].now)
    ensures Blocked(Run(events[..n]), Day(events[i].now), events[i].saved)
    decreases n
  {
    hide Step, Blocked, Run;
    RunStep(events, n - 1);
    if n == i + 1 {
      QuotaBlocks(Run(events[..i]), events[i]);
    } else {
      BlockedThroughout(events, i, n - 1);
      BlockedStep(Run(events[..n - 1]), events[n - 1], Day(events[i].now), events[i].saved);
    }
  }

  lemma QuotaBlocks(w: World, e: Event)
    requires Delivers(w) && e.Response? && e.status == 429
    ensures Blocked(Step(w, e).0, Day(e.now), e.saved)
  {
  }

  /** After a 429 nothing is admitted for the rest of that UTC day, whatever 402, 403 or 429 responses follow:
      across restarts when its save went through, otherwise until a restart reads the stale file. */
  lemma NothingAdmittedThatDay(events: seq<Event>, i: nat, j: nat)
    requires Forward(events) && i < j < |events| && QuotaAnswer(events, i) && Admitted(events, j).Some?
    requires events[i].saved || forall k :: i < k < j ==> !events[k].Start?
    ensures events[j].Before? && Day(events[j].now) > Day(events[i].now)
  {
    hide Step, Blocked, Run, Day;
    OnlyRequestsAreAdmitted(Run(events[..j]), events[j]);
    DayMonotone(events[i].now, events[j].now);
    if Day(events[j].now) == Day(events[i].now) {
      forall k | i < k < j && !events[k].Exit? ensures Day(events[k].now) == Day(events[i].now) {
        DayMonotone(events[i].now, events[k].now);
        DayMonotone(events[k].now, events[j].now);
      }
      BlockedThroughout(events, i, j);
      BlockedStep(Run(events[..j]), events[j], Day(events[i].now), events[i].saved);
    }
  }

  lemma OnlyRequestsAreAdmitted(w: World, e: Event)
    ensures Step(w, e).1.Some? ==> e.Before?
  {
  }

  lemma DayMonotone(a: int, b: int)
    ensures a <= b ==> Day(a) <= Day(b)
  {
  }

  // ---------- exactly when something can be admitted again ----------

  predicate BudgetLeft(s: Counters) { s.generations < MAX_GENERATIONS || s.inputs < MAX_INPUTS }

  /** No stop that a restart keeps, and budget left. */
  predicate Open(s: Counters) {
    s.stop != Some(RequestLimit) && s.stop != Some(FreeAccessDenied) && BudgetLeft(s)
  }

  /** The file or the running guard is open; without a file everything still is. */
  predicate MayAdmit(w: World) {
    w.disk.None? || Open(w.disk.value) || (w.guard.Some? && Open(w.guard.value.state))
  }

  lemma ClosedStep(w: World, e: Event)
    requires !MayAdmit(w) && !(e.Response? && e.status == 429 && Delivers(w))
    ensures !MayAdmit(Step(w, e).0) && Step(w, e).1 == None
  {
    hide FreshPreflight, CheckedDay, Day;
    if e.Before? && w.guard.Some? {
      AmountPositive(e.request, w.guard.value.preflight.accountId);
      hide AmountOf;
    }
  }

  lemma AmountPositive(r: Request, account: string)
    ensures AmountOf(r, account).Success? && AmountOf(r, account).value.Inputs? ==> AmountOf(r, account).value.count >= 1
  {
  }

  ghost predicate AdmitsLater(events: seq<Event>, more: seq<Event>) {
    exists j :: |events| <= j < |events + more| && Admitted(events + more, j).Some?
  }

  /** Somewhere in the continuation a 429 reaches a running guard. */
  ghost predicate QuotaAnswerIn(events: seq<Event>, more: seq<Event>) {
    exists k :: |events| <= k < |events + more| && QuotaAnswer(events + more, k)
  }

  lemma {:induction false} ClosedThroughout(events: seq<Event>, i: nat, n: nat)
    requires i <= n <= |events| && !MayAdmit(Run(events[..i]))
    requires forall k :: i <= k < n ==> !QuotaAnswer(events, k)
    ensures !MayAdmit(Run(events[..n])) && forall k :: i <= k < n ==> Admitted(events, k) == None
    decreases n
  {
    hide Step, MayAdmit, Run;
    if i < n {
      ClosedThroughout(events, i, n - 1);
      RunStep(events, n - 1);
      assert !QuotaAnswer(events, n - 1);
      ClosedStep(Run(events[..n - 1]), events[n - 1]);
    }
  }

  function PreflightOn(now: int, account: string): Preflight {
    Preflight("Workers Free", now, Some(0), 0, DAILY_NEURONS, true, true, "quota page", account)
  }

  function Chat(account: string): Request {
    Request(true, "api.cloudflare.com", "https", "", [], Base(account) + "/v1/chat/completions",
            Payload(None, Some("@cf/openai/gpt-oss-20b"), Some(1024)))
  }

  function Embedding(account: string): Request {
    Request(true, "api.cloudflare.com", "https", "", [], Base(account) + "/run/@cf/qwen/qwen3-embedding-0.6b",
            Payload(Some(["text"]), None, None))
  }

  /** A request the budget of the counters still covers. */
  function Affordable(s: Counters, account: string): Request {
    if s.generations < MAX_GENERATIONS then Chat(account) else Embedding(account)
  }

  lemma AffordableIsApproved(s: Counters, account: string)
    requires BudgetLeft(s)
    ensures AmountOf(Affordable(s, account), account).Success? && Fits(s, AmountOf(Affordable(s, account), account).value)
  {
    var chat, embedding, n := "/v1/chat/completions", "/run/@cf/qwen/qwen3-embedding-0.6b", |Base(account)|;
    assert (Base(account) + chat)[n + 1] == 'v' && (Base(account) + embedding)[n + 1] == 'r';
  }

  /** A restart on open counters, once every pause is over, admits an affordable request. */
  lemma RestartAdmits(w: World, found: Counters, account: string, now: int)
    requires found == (if w.disk.Some? then w.disk.value else FreshCounters("")) && Open(found)
    requires found.generations >= 0 && found.inputs >= 0 && (found.pausedUntil.Some? ==> found.pausedUntil.value <= now)
    ensures var t := Step(w, Start(found.identity, PreflightOn(now, account), now, true)).0;
            Step(t, Before(Affordable(found, account), now, true)).1.Some?
  {
    AffordableIsApproved(found, account);
    hide AmountOf, Affordable;
    SavedStart(w.disk, found, found.identity, PreflightOn(now, account), now);
    assert AmountOf(Affordable(found, account), account).Success?;
    SameFit(found, Resumed(found, now), AmountOf(Affordable(found, account), account).value);
  }

  lemma SameFit(s: Counters, t: Counters, a: Amount)
    requires s.generations == t.generations && s.inputs == t.inputs
    ensures Fits(s, a) == Fits(t, a)
  {
  }

  /** A clock reading not before any of the events. */
  function Horizon(events: seq<Event>): (t: int)
    ensures forall i :: 0 <= i < |events| && !events[i].Exit? ==> events[i].now <= t
  {
    if events == [] then 0
    else
      var t := Horizon(events[1..]);
      if !events[0].Exit? && events[0].now > t then events[0].now else t
  }

  lemma ForwardMore(events: seq<Event>, e: Event)
    requires Forward(events) && (e.Exit? || Horizon(events) <= e.now)
    ensures Forward(events + [e])
  {
  }

  function PauseEnd(s: Counters): int { if s.pausedUntil.Some? then s.pausedUntil.value else 0 }

  function Later(a: int, b: int): int { if a < b then b else a }

  lemma OpenFileAdmits(events: seq<Event>, account: string) returns (more: seq<Event>)
    requires Forward(events)
    requires var w := Run(events); w.disk.None? || Open(w.disk.value)
    ensures Forward(events + more) && !QuotaAnswerIn(events, more) && AdmitsLater(events, more)
  {
    hide Run, Step, Affordable, Open;
    var w := Run(events);
    CountersCoverAdmissions(events, |events|);
    assert events[..|events|] == events;
    var found := if w.disk.Some? then w.disk.value else FreshCounters("");
    assert Open(found) by { FreshIsOpen(""); }
    var now := Later(Horizon(events), PauseEnd(found));
    var start, request := Start(found.identity, PreflightOn(now, account), now, true), Before(Affordable(found, account), now, true);
    more := [start, request];
    RestartAdmits(w, found, account, now);
    assert events + more == (events + [start]) + [request];
    ForwardMore(events, start);
    HorizonMore(events, start);
    ForwardMore(events + [start], request);
    RunStep(events + more, |events|);
    var n := |events| + 1;
    assert (events + more)[..|events|] == events && (events + more)[|events|] == start && (events + more)[n] == request;
    assert Admitted(events + more, n).Some?;
    forall k: nat | |events| <= k < |events + more| ensures !QuotaAnswer(events + more, k) {
      assert (events + more)[k] == more[k - |events|];
    }
  }

  lemma FreshIsOpen(identity: string)
    ensures Open(FreshCounters(identity))
  {
  }

  lemma {:induction false} HorizonMore(events: seq<Event>, e: Event)
    ensures Horizon(events + [e]) == if e.Exit? then Horizon(events) else Later(Horizon(events), e.now)
  {
    if events == [] {
      assert [] + [e] == [e];
    } else {
      HorizonMore(events[1..], e);
      assert (events + [e])[1..] == events[1..] + [e];
    }
  }

  /** A continuation behind one more event is a continuation that begins with that event. */
  lemma StartsWith(events: seq<Event>, e: Event, rest: seq<Event>)
    ensures events + ([e] + rest) == (events + [e]) + rest
    ensures AdmitsLater(events + [e], rest) ==> AdmitsLater(events, [e] + rest)
    ensures QuotaAnswerIn(events, [e] + rest) ==> QuotaAnswerIn(events + [e], rest) || e.Response?
  {
    hide Run, Step;
    var longer, all := events + [e], events + ([e] + rest);
    assert all == longer + rest;
    if AdmitsLater(longer, rest) {
      var j: nat :| |longer| <= j < |all| && Admitted(all, j).Some?;
      assert Admitted(all, j).Some?;
    }
    if QuotaAnswerIn(events, [e] + rest) {
      var k: nat :| |events| <= k < |all| && QuotaAnswer(all, k);
      assert all[|events|] == e;
    }
  }

  /** The first day after all of these. */
  lemma DayAfter(horizon: int, pause: int, day: int) returns (now: int)
    ensures horizon <= now && pause <= now && Day(now) > day
  {
    now := (Later(Later(Day(horizon), Day(pause)), day) + 1) * DAY;
    DayBounds(horizon);
    DayBounds(pause);
  }

  lemma ExpiryOpens(w: World, account: string, now: int)
    requires w.guard.Some? && Open(w.guard.value.state) && PauseEnd(w.guard.value.state) <= now
    requires Day(now) > CheckedDay(w.guard.value.preflight)
    ensures var t := Step(w, Before(Chat(account), now, true)).0; t.disk.Some? && Open(t.disk.value)
  {
    hide AmountOf, Day, CheckedDay;
  }

  /** A running guard that is open saves its counters once its preflight has expired; a start then finds them open. */
  lemma OpenGuardAdmits(events: seq<Event>, account: string) returns (more: seq<Event>)
    requires Forward(events) && Run(events).guard.Some? && Open(Run(events).guard.value.state)
    ensures Forward(events + more) && !QuotaAnswerIn(events, more) && AdmitsLater(events, more)
  {
    hide Run, Step, Open, Forward, AdmitsLater, QuotaAnswerIn, Chat, Day, CheckedDay, PauseEnd, Horizon;
    var w := Run(events);
    var now := DayAfter(Horizon(events), PauseEnd(w.guard.value.state), CheckedDay(w.guard.value.preflight));
    var expire := Before(Chat(account), now, true);
    ForwardMore(events, expire);
    var longer := events + [expire];
    assert longer[..|events|] == events && longer[..|longer|] == longer && longer[|events|] == expire;
    RunStep(longer, |events|);
    ExpiryOpens(w, account, now);
    var rest := OpenFileAdmits(longer, account);
    more := [expire] + rest;
    StartsWith(events, expire, rest);
  }

  /** Without another quota answer, something can be admitted after a run if and only if the file or the running
      guard holds no lasting stop and budget is left. */
  lemma AdmitsAgainIff(events: seq<Event>)
    requires Forward(events)
    ensures (exists more :: Forward(events + more) && !QuotaAnswerIn(events, more) && AdmitsLater(events, more))
            <==> MayAdmit(Run(events))
  {
    hide Run, Step, Open, Forward;
    var w := Run(events);
    if w.disk.None? || Open(w.disk.value) { var more := OpenFileAdmits(events, "a"); }
    else if w.guard.Some? && Open(w.guard.value.state) { var more := OpenGuardAdmits(events, "a"); }
    else {
      forall more | !QuotaAnswerIn(events, more) ensures !AdmitsLater(events, more) {
        assert (events + more)[..|events|] == events;
        ClosedThroughout(events + more, |events|, |events + more|);
      }
    }
  }

  // ---------- a denial holds until a quota answer replaces it ----------

  predicate Denied(w: World) {
    w.disk.Some? && w.disk.value.stop == Some(FreeAccessDenied) && (w.guard.Some? ==> w.guard.value.state.stop == Some(FreeAccessDenied))
  }

  /** A running guard received a denial of a request it had let through, and its save went through. */
  predicate DenialAnswer(events: seq<Event>, i: nat)
    requires i < |events|
  {
    events[i].Response? && events[i].status in {402, 403} && events[i].saved && Delivers(Run(events[..i]))
  }

  lemma DenialDenies(w: World, e: Event)
    requires Delivers(w) && e.Response? && e.status in {402, 403} && e.saved
    ensures Denied(Step(w, e).0)
  {
  }

  lemma DeniedIsClosed(w: World)
    requires Denied(w)
    ensures !MayAdmit(w)
  {
  }

  /** After a saved 402 or 403 nothing is admitted unless a 429 reached a running guard in between. */
  lemma DenialHoldsUntilAQuotaAnswer(events: seq<Event>, i: nat, j: nat)
    requires i < j < |events| && DenialAnswer(events, i) && Admitted(events, j).Some?
    ensures exists k :: i < k < j && QuotaAnswer(events, k)
  {
    hide Step, Denied, Run, MayAdmit;
    OnlyRequestsAreAdmitted(Run(events[..j]), events[j]);
    RunStep(events, i);
    DenialDenies(Run(events[..i]), events[i]);
    DeniedIsClosed(Run(events[..i + 1]));
    if forall k :: i < k < j ==> !QuotaAnswer(events, k) {
      ClosedThroughout(events, i + 1, j + 1);
    }
  }

  /** After a denial with nothing unanswered, no later response reaches a guard and nothing is admitted. */
  lemma {:induction false} NothingLifts(events: seq<Event>, i: nat, n: nat)
    requires i <= n <= |events| && Denied(Run(events[..i])) && Run(events[..i]).pending == 0
    ensures Denied(Run(events[..n])) && Run(events[..n]).pending == 0 && forall k :: i <= k < n ==> Admitted(events, k) == None
    decreases n
  {
    hide Step, Denied, Run;
    if i < n {
      NothingLifts(events, i, n - 1);
      RunStep(events, n - 1);
      IdleStep(Run(events[..n - 1]), events[n - 1]);
    }
  }

  lemma IdleStep(w: World, e: Event)
    requires Denied(w) && w.pending == 0
    ensures Denied(Step(w, e).0) && Step(w, e).0.pending == 0 && Step(w, e).1 == None
  {
    hide FreshPreflight, AmountOf;
  }

  /** Right after a saved 402 or 403, some continuation admits a request if and only if budget is left and another
      request that was let through is still unanswered; every continuation that does holds the 429 that answers one. */
  lemma DenialIsLiftedIff(events: seq<Event>)
    requires Forward(events) && events != [] && DenialAnswer(events, |events| - 1)
    ensures Run(events).disk.Some?
    ensures (exists more :: Forward(events + more) && AdmitsLater(events, more)) <==>
              BudgetLeft(Run(events).disk.value) && Run(events).pending > 0
    ensures forall more :: AdmitsLater(events, more) ==> QuotaAnswerIn(events, more)
  {
    hide Step, Run, MayAdmit, BudgetLeft, Forward;
    var n := |events|;
    RunStep(events, n - 1);
    assert events[..n] == events;
    var w := Run(events);
    DenialDenies(Run(events[..n - 1]), events[n - 1]);
    DenialSettles(Run(events[..n - 1]), events[n - 1]);
    DeniedIsClosed(w);
    forall more | AdmitsLater(events, more) ensures QuotaAnswerIn(events, more) {
      assert (events + more)[..n] == events;
      if !QuotaAnswerIn(events, more) { ClosedThroughout(events + more, n, |events + more|); }
    }
    if w.pending == 0 {
      forall more ensures !AdmitsLater(events, more) {
        assert (events + more)[..n] == events;
        NothingLifts(events + more, n, |events + more|);
      }
    } else if BudgetLeft(w.disk.value) {
      var more := QuotaAnswerOpens(events, "a");
    } else {
      forall more ensures !AdmitsLater(events, more) {
        assert (events + more)[..n] == events;
        SpentThroughout(events + more, n, |events + more|);
      }
    }
  }

  /** Right after a saved 429 a continuation without another one admits a request if and only if budget is left. */
  lemma QuotaAnswerLiftsIff(events: seq<Event>)
    requires Forward(events) && events != [] && QuotaAnswer(events, |events| - 1) && events[|events| - 1].saved
    ensures Run(events).disk.Some?
    ensures (exists more :: Forward(events + more) && !QuotaAnswerIn(events, more) && AdmitsLater(events, more))
            <==> BudgetLeft(Run(events).disk.value)
  {
    hide Step, Run, BudgetLeft, Forward, QuotaAnswerIn, AdmitsLater, MayAdmit;
    var n := |events|;
    RunStep(events, n - 1);
    assert events[..n] == events;
    QuotaAnswerSettles(Run(events[..n - 1]), events[n - 1]);
    AdmitsAgainIff(events);
  }

  lemma QuotaAnswerSettles(w: World, e: Event)
    requires Delivers(w) && e.Response? && e.status == 429 && e.saved
    ensures var t := Step(w, e).0; t.disk.Some? && (MayAdmit(t) <==> BudgetLeft(t.disk.value))
  {
  }

  /** The saved denial leaves a running guard that agrees with the file. */
  lemma DenialSettles(w: World, e: Event)
    requires Delivers(w) && e.Response? && e.status in {402, 403} && e.saved
    ensures var t := Step(w, e).0; t.disk.Some? && t.guard.Some? && t.guard.value.state == t.disk.value
  {
  }

  lemma QuotaAnswerOpens(events: seq<Event>, account: string) returns (more: seq<Event>)
    requires Forward(events) && Run(events).disk.Some? && Delivers(Run(events))
    requires Run(events).guard.value.state == Run(events).disk.value && BudgetLeft(Run(events).disk.value)
    ensures Forward(events + more) && AdmitsLater(events, more)
  {
    hide Run, Step, Forward, AdmitsLater, QuotaAnswerIn, Horizon, MayAdmit;
    var answer := Response(429, Horizon(events), true);
    ForwardMore(events, answer);
    var longer := events + [answer];
    assert longer[..|events|] == events && longer[..|longer|] == longer && longer[|events|] == answer;
    RunStep(longer, |events|);
    AnswerOpens(Run(events), Horizon(events));
    var rest := OpenFileAdmits(longer, account);
    more := [answer] + rest;
    StartsWith(events, answer, rest);
  }

  lemma AnswerOpens(w: World, now: int)
    requires w.disk.Some? && Delivers(w) && w.guard.value.state == w.disk.value && BudgetLeft(w.disk.value)
    ensures var t := Step(w, Response(429, now, true)).0; t.disk.Some? && Open(t.disk.value)
  {
  }

  /** A file and a guard whose budget is spent. */
  predicate Spent(w: World) {
    w.disk.Some? && !BudgetLeft(w.disk.value) && (w.guard.Some? ==> !BudgetLeft(w.guard.value.state))
  }

  lemma SpentStep(w: World, e: Event)
    requires Spent(w)
    ensures Spent(Step(w, e).0) && Step(w, e).1 == None
  {
    hide FreshPreflight, CheckedDay, Day;
    if e.Before? && w.guard.Some? {
      AmountPositive(e.request, w.guard.value.preflight.accountId);
      hide AmountOf;
    }
  }

  lemma {:induction false} SpentThroughout(events: seq<Event>, i: nat, n: nat)
    requires i <= n <= |events| && Spent(Run(events[..i]))
    ensures Spent(Run(events[..n])) && forall k :: i <= k < n ==> Admitted(events, k) == None
    decreases n
  {
    hide Step, Spent, Run;
    if i < n {
      SpentThroughout(events, i, n - 1);
      RunStep(events, n - 1);
      SpentStep(Run(events[..n - 1]), events[n - 1]);
    }
  }

  /** A concrete run: of two requests that were let through the first is denied; the quota answer to the second
      replaces the denial, and the next day admits again. */
  lemma DenialIsNotFinal() returns (events: seq<Event>)
    ensures |events| == 7 && Forward(events) && DenialAnswer(events, 3) && QuotaAnswer(events, 4)
    ensures Admitted(events, 1) == Admitted(events, 2) == Admitted(events, 6) == Some(Generation)
  {
    hide Run, StartStep, ResponseStep, BeforeStep, AmountOf, Counted;
    var p, q := PreflightOn(100, "a"), PreflightOn(DAY, "a");
    events := [Start("run", p, 100, true), Before(Chat("a"), 101, true), Before(Chat("a"), 102, true), Response(403, 103, true),
               Response(429, 104, true), Start("run", q, DAY, true), Before(Chat("a"), DAY + 1, true)];
    assert Run(events[..0]) == NOTHING by { NothingRun(events); }
    RunStep(events, 0);
    RunStep(events, 1);
    RunStep(events, 2);
    RunStep(events, 3);
    RunStep(events, 4);
    RunStep(events, 5);
    var s0 := FreshCounters("run");
    var s1, s2 := s0.(generations := 1), s0.(generations := 2);
    ChatIsApproved();
    SavedStart(None, s0, "run", p, 100);
    assert Run(events[..1]) == World(Some(s0), Some(Guard(s0, p)), 0);
    SavedChat(s0, p, 101);
    assert Run(events[..2]) == World(Some(s1), Some(Guard(s1, p)), 1);
    SavedChat(s1, p, 102);
    assert Run(events[..3]) == World(Some(s2), Some(Guard(s2, p)), 2);
    var denied := s2.(stop := Some(FreeAccessDenied));
    SavedAnswer(s2, p, 403, 103);
    assert Run(events[..4]) == World(Some(denied), Some(Guard(denied, p)), 1);
    var paused := s2.(pausedUntil := Some(DAY), stop := Some(QuotaPaused));
    SavedAnswer(denied, p, 429, 104);
    assert Run(events[..5]) == World(Some(paused), Some(Guard(paused, p)), 0);
    SavedStart(Some(paused), paused, "run", q, DAY);
    assert Run(events[..6]) == World(Some(s2), Some(Guard(s2, q)), 0);
    SavedChat(s2, q, DAY + 1);
  }

  lemma SavedStart(disk: Option<Counters>, found: Counters, identity: string, p: Preflight, now: int)
    requires FreshPreflight(p, now) && found == (if disk.Some? then disk.value else FreshCounters(identity))
    requires found.identity == identity && found.generations >= 0 && found.inputs >= 0
    ensures StartStep(disk, identity, p, now, true) == (Some(Resumed(found, now)), Some(Guard(Resumed(found, now), p)))
  {
  }

  lemma SavedAnswer(s: Counters, p: Preflight, status: int, now: int)
    requires status in {402, 403, 429}
    ensures ResponseStep(Guard(s, p), Some(s), status, now, true) == (Guard(Answered(s, status, now), p), Some(Answered(s, status, now)))
  {
  }

  lemma SavedChat(s: Counters, p: Preflight, now: int)
    requires s.stop == None && s.pausedUntil == None && Day(now) == CheckedDay(p)
    requires AmountOf(Chat("a"), p.accountId) == Success(Generation) && s.generations < MAX_GENERATIONS
    ensures var t := s.(generations := s.generations + 1);
            BeforeStep(Guard(s, p), Some(s), Chat("a"), now, true) == (Guard(t, p), Some(t), Success(Generation))
  {
    hide AmountOf;
  }

  lemma NothingRun(events: seq<Event>)
    ensures Run(events[..0]) == NOTHING
  {
  }

  lemma ChatIsApproved()
    ensures AmountOf(Chat("a"), "a") == Success(Generation)
  {
    var chat, embedding := "/v1/chat/completions", "/run/@cf/qwen/qwen3-embedding-0.6b";
    assert (Base("a") + chat)[|Base("a")| + 1] == 'v' && (Base("a") + embedding)[|Base("a")| + 1] == 'r';
  }
}
