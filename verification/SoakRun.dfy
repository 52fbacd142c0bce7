/** The soak's run loop, `_run_soak` of scripts/knowledge_soak.py: cycle after
    cycle, a final start that resumes what is pending, and at most two more for
    a library that could not be read.  Nothing is assumed of the children and
    the stores they leave; a child that does what was planned on them and tells
    the truth is never reported. */
module SoakRun {
  import opened SoakModel
  import opened SoakCommit
  import SoakCoverage
  import SoakFacts
  import SoakOracle
  import SoakPlanner
  import SoakStore
  import SoakTruth
  import StoreCheck

  datatype Exit = Ended | Killed | Other

  /** How a child ended, what it printed, what it reported if it got that far,
      the chunk rows the parent then reads, and how many problems it finds in
      the stores otherwise. */
  datatype Outcome = Outcome(
    exit: Exit, lines: seq<Line>, facts: Option<SoakFacts.Facts>, rows: seq<StoreCheck.Row>, storeProblems: nat)

  /** A child works on the stores: its outcome, and what it leaves. */
  type Child = (Plan, SoakStore.Store) -> (Outcome, SoakStore.Store)

  /** `maxCycles` is 0 when only the clock limits the run; the clock runs out
      after `clock` cycles. */
  datatype Limits = Limits(maxCycles: nat, clock: nat, tolerate: bool)

  function CycleLimit(limits: Limits): nat {
    if limits.maxCycles != 0 && limits.maxCycles < limits.clock then limits.maxCycles else limits.clock
  }

  datatype Violation =
    | ChildFailed(cycle: nat)
    | Operation(cycle: nat, problem: Problem)
    | Searched(cycle: nat, complaint: SoakFacts.Complaint)
    | InChunks(cycle: nat, chunks: StoreCheck.Complaint)
    | InStores(cycle: nat, count: nat)
    | StillUnreadable(cycle: nat)

  /** What the parent saw of a cycle it judged. */
  datatype Judged = Judged(
    unread: set<LibId>, confined: set<LibId>, bad: bool, live: set<LibId>, asked: set<LibId>)

  datatype Report = Report(cycles: nat, violations: seq<Violation>, history: seq<Judged>, pending: seq<Crawl>)

  function Operations(cycle: nat, problems: seq<Problem>): (vs: seq<Violation>)
    ensures |vs| == |problems| && forall i | 0 <= i < |vs| :: vs[i].Operation?
  {
    seq(|problems|, i requires 0 <= i < |problems| => Operation(cycle, problems[i]))
  }

  function Searches(cycle: nat, complaints: seq<SoakFacts.Complaint>): (vs: seq<Violation>)
    ensures |vs| == |complaints| && forall i | 0 <= i < |vs| :: vs[i].Searched?
  {
    seq(|complaints|, i requires 0 <= i < |complaints| => Searched(cycle, complaints[i]))
  }

  function ChunkProblems(cycle: nat, complaints: seq<StoreCheck.Complaint>): (vs: seq<Violation>)
    ensures |vs| == |complaints| && forall i | 0 <= i < |vs| :: vs[i].InChunks?
  {
    seq(|complaints|, i requires 0 <= i < |complaints| => InChunks(cycle, complaints[i]))
  }

  /** Every library a judged cycle could not read is confined, or the cycle is
      in violation. */
  predicate Noticed(j: Judged) {
    forall id | id in j.unread :: id in j.confined || j.bad
  }

  /** The next judged cycle: it asks every library the last one confined that
      is still live, and a library neither could read is a violation. */
  predicate Follows(before: Judged, after: Judged, tolerate: bool) {
    && (forall id | id in before.confined && id in after.live :: id in after.asked)
    && (!tolerate ==> forall id | id in before.unread && id in after.unread :: after.bad)
  }

  ghost predicate HistoryOk(h: seq<Judged>, tolerate: bool) {
    && (forall i | 0 <= i < |h| :: Noticed(h[i]))
    && (forall i | 0 < i < |h| :: Follows(h[i - 1], h[i], tolerate))
    && (forall i | 0 <= i < |h| - 1 :: !h[i].bad)
  }

  /** One judged cycle added to a history without a violation. */
  lemma HistoryGrows(h: seq<Judged>, j: Judged, tolerate: bool)
    requires HistoryOk(h, tolerate) && Noticed(j)
    requires h != [] ==> !h[|h| - 1].bad && Follows(h[|h| - 1], j, tolerate)
    ensures HistoryOk(h + [j], tolerate)
  {
    hide Noticed, Follows;
    var all := h + [j];
    assert forall i | 0 <= i < |h| :: all[i] == h[i];
  }

  /** The report of a cycle that was judged: what it says of the libraries. */
  method Judge(plan: Plan, f: SoakFacts.Facts, unreadable: set<LibId>, tolerate: bool, others: bool)
    returns (complaints: seq<SoakFacts.Complaint>, confined: set<LibId>, j: Judged)
    ensures j == Judged(SoakFacts.ReadFailures(f), confined, others || complaints != [], plan.live, AskedLibs(plan))
    ensures Noticed(j)
    ensures !tolerate && complaints == [] ==> SoakFacts.ReadFailures(f) !! unreadable
    ensures !SoakFacts.Plain(plan.live, f) && SoakFacts.Blamed(f) == {} ==> complaints == [] && confined == {}
    ensures complaints == [] <==> SoakFacts.InOrder(plan.live, f, unreadable, tolerate)
  {
    hide SoakFacts.InOrder;
    var c, m := SoakFacts.CheckFacts(plan.live, f, unreadable, tolerate);
    complaints, confined := c, m.Keys;
    j := Judged(SoakFacts.ReadFailures(f), confined, others || complaints != [], plan.live, AskedLibs(plan));
    hide SoakFacts.Plain, SoakFacts.Blamed, SoakFacts.ReadFailures;
    forall id | id in j.unread ensures id in j.confined || j.bad {
      SoakFacts.UnreadIsBlamed(plan.live, f, id);
    }
    if !tolerate && complaints == [] {
      forall id | id in j.unread ensures id !in unreadable {
        SoakFacts.JudgedReadFailure(plan.live, f, unreadable, id);
      }
    }
  }

  function AskedLibs(plan: Plan): set<LibId> {
    set a | a in plan.ask :: a.lib
  }

  lemma StartOk(args: Args)
    ensures Good(args, NEW_STATE)
  {
  }

  lemma NoHistory(tolerate: bool)
    ensures HistoryOk([], tolerate)
  {
  }

  /** The plan asks every library it was told to probe that is still live. */
  lemma ProbedAsked(args: Args, cycle: nat, final: bool, probe: set<LibId>, s: State, d: Draws)
    requires SoakOracle.StateOk(args, s) && SoakOracle.Stocked(s) && Fair(args, d) && args.pages >= 1
    ensures var plan := Planned(args, cycle, final, probe, s, d).0;
            forall id | id in probe && id in plan.live :: id in AskedLibs(plan)
  {
    hide SoakOracle.StateOk, SoakOracle.Stocked, Fair, Stages, ApplyCrawls, Facts, GoneFacts, Probed, CrashDue, CrawlOps;
    var (plan, proj) := Planned(args, cycle, final, probe, s, d);
    forall id | id in probe && id in plan.live ensures id in AskedLibs(plan) {
      SoakOracle.ProbeIsAsked(args, cycle, final, probe, s, d, id);
      var f :| f in plan.ask && f.lib == id;
    }
  }

  /** A judged cycle follows on the last one judged. */
  lemma GrowHistory(h: seq<Judged>, j: Judged, unreadable: set<LibId>, tolerate: bool)
    requires HistoryOk(h, tolerate) && Noticed(j)
    requires h != [] ==> !h[|h| - 1].bad && h[|h| - 1].confined == unreadable
    requires forall id | id in unreadable && id in j.live :: id in j.asked
    requires !tolerate && !j.bad ==> j.unread !! unreadable
    ensures HistoryOk(h + [j], tolerate)
  {
    if h != [] {
      assert Noticed(h[|h| - 1]);
    }
    HistoryGrows(h, j, tolerate);
  }

  /** How a cycle went: the child failed, it was killed as planned, or it ended
      and was judged. */
  datatype Fate = Lost | Crashed | Ran(judged: Judged)

  ghost predicate Good(args: Args, s: State) {
    SoakOracle.StateOk(args, s) && SoakOracle.Stocked(s) && |s.pending| <= 1
  }

  method TakeBack(args: Args, plan: Plan, proj: SoakPlanner.SoakState, lines: seq<Line>, crashed: bool)
    returns (problems: seq<Problem>)
    requires SoakOracle.StateOk(args, proj.Value()) && SoakOracle.Stocked(proj.Value())
    requires CrashInCrawl(plan) && plan.resume == proj.pending
    modifies proj
    ensures SoakOracle.StateOk(args, proj.Value()) && SoakOracle.Stocked(proj.Value())
    ensures problems == [] ==> |proj.pending| <= 1 && (!crashed ==> proj.pending == [])
    ensures problems == Problems(plan, lines, crashed) && proj.Value() == Committed(plan, old(proj.Value()), lines, crashed)
  {
    hide SoakOracle.StateOk, SoakOracle.Stocked, Committed, Problems;
    ghost var projected := proj.Value();
    problems := proj.Commit(plan, lines, crashed);
    SoakOracle.CommitOk(args, plan, projected, lines, crashed);
    if problems == [] {
      PendingAfterCommit(plan, projected, lines, crashed);
    }
  }

  /** The parent's checks of a cycle that was not killed. */
  method Check(cycle: nat, plan: Plan, s: SoakPlanner.SoakState, out: Outcome, unreadable: set<LibId>, tolerate: bool,
               problems: seq<Problem>, expected: SoakTruth.Expected)
    returns (judged: Judged, violations: seq<Violation>)
    requires out.facts.Some?
    ensures judged.bad <==> violations != []
    ensures violations == [] ==>
              problems == [] && out.storeProblems == 0
              && SoakFacts.InOrder(plan.live, out.facts.value, unreadable, tolerate)
              && StoreCheck.RowsExact(out.rows, s.Value(), expected) && StoreCheck.Countable(s.Value())
    ensures forall v | v in violations :: !v.StillUnreadable?
    ensures Noticed(judged) && judged.live == plan.live && judged.asked == AskedLibs(plan)
    ensures !tolerate && !judged.bad ==> judged.unread !! unreadable
    ensures problems == [] && out.storeProblems == 0
            && !SoakFacts.Plain(plan.live, out.facts.value) && SoakFacts.Blamed(out.facts.value) == {}
            && StoreCheck.RowsExact(out.rows, s.Value(), expected) && StoreCheck.Countable(s.Value())
            ==> violations == [] && judged.confined == {}
  {
    hide SoakFacts.Plain, SoakFacts.Blamed, SoakFacts.ReadFailures, StoreCheck.RowsExact, StoreCheck.Countable, Noticed, SoakFacts.InOrder;
    var chunks := StoreCheck.CheckChunks(out.rows, s.Value(), expected);
    var others := problems != [] || chunks != [] || out.storeProblems > 0;
    var complaints, confined;
    complaints, confined, judged := Judge(plan, out.facts.value, unreadable, tolerate, others);
    violations := Operations(cycle, problems) + Searches(cycle, complaints) + ChunkProblems(cycle, chunks);
    if out.storeProblems > 0 {
      violations := violations + [InStores(cycle, out.storeProblems)];
    }
  }

  /** The child did what the plan said to the stores and was killed, if at all,
      as planned; if it was not, it told the truth and nothing else is wrong in
      the stores.  Nothing is asked of a killed child's report: it makes none. */
  ghost predicate SoundTurn(plan: Plan, store: SoakStore.Store, turn: (Outcome, SoakStore.Store), expected: SoakTruth.Expected)
    requires CrashInCrawl(plan)
  {
    exists ch :: SoundWith(plan, store, turn, expected, ch)
  }

  ghost predicate SoundWith(plan: Plan, store: SoakStore.Store, turn: (Outcome, SoakStore.Store), expected: SoakTruth.Expected,
                            ch: SoakStore.Choices)
    requires CrashInCrawl(plan)
  {
    && turn.0.exit == (if SoakStore.Killed(plan, ch) then Killed else Ended)
    && (!SoakStore.Killed(plan, ch) ==> turn.0.storeProblems == 0)
    && SoakTruth.TrueTo(plan, store, ch, turn.0.lines, turn.0.facts, turn.0.rows, turn.1, expected)
  }

  ghost predicate Sound(child: Child, expected: SoakTruth.Expected) {
    forall plan, store | CrashInCrawl(plan) :: SoundTurn(plan, store, child(plan, store), expected)
  }

  const QUIET := SoakFacts.Facts(false, true, SoakFacts.Full, map[], {}, [], [], 0, 0, false, false, false)

  /** How a sound child may end: killed where its crash is planned, with no
      report, or at its end, with one. */
  predicate Ends(out: Outcome, plan: Plan, dies: bool) {
    if dies && plan.crash.Some? then out.exit == Killed && out.facts == None && out.rows == []
    else out.exit == Ended && out.facts == Some(QUIET)
  }

  lemma SoundTurnExists(plan: Plan, store: SoakStore.Store, expected: SoakTruth.Expected, dies: bool, kept: set<nat>)
    returns (turn: (Outcome, SoakStore.Store))
    requires CrashInCrawl(plan)
    ensures SoundTurn(plan, store, turn, expected) && Ends(turn.0, plan, dies)
  {
    hide SoakStore.Leaves, SoakStore.Printed, SoakTruth.RowsTrue, CrashInCrawl;
    var ch := SoakCoverage.FreshChoices(store);
    ch := ch.(dies := dies, kept := kept);
    var after := SoakStore.Leaves(plan, store, ch);
    var lines := SoakStore.Printed(plan, ch);
    if SoakStore.Killed(plan, ch) {
      turn := (Outcome(Killed, lines, None, [], 0), after);
    } else {
      var rows := SoakTruth.TrueRows(after, expected);
      turn := (Outcome(Ended, lines, Some(QUIET), rows, 0), after);
    }
    assert SoundWith(plan, store, turn, expected, ch);
  }

  ghost predicate SoundEnd(plan: Plan, store: SoakStore.Store, expected: SoakTruth.Expected, dies: bool, turn: (Outcome, SoakStore.Store))
    requires CrashInCrawl(plan)
  {
    SoundTurn(plan, store, turn, expected) && Ends(turn.0, plan, dies)
  }

  ghost function ATurn(plan: Plan, store: SoakStore.Store, expected: SoakTruth.Expected, dies: bool, kept: set<nat>)
    : (turn: (Outcome, SoakStore.Store))
    ensures CrashInCrawl(plan) ==> SoundEnd(plan, store, expected, dies, turn)
  {
    if CrashInCrawl(plan) then
      assert exists turn :: SoundEnd(plan, store, expected, dies, turn) by {
        var turn := SoundTurnExists(plan, store, expected, dies, kept);
        assert SoundEnd(plan, store, expected, dies, turn);
      }
      var turn :| SoundEnd(plan, store, expected, dies, turn);
      turn
    else (Outcome(Ended, [], Some(QUIET), [], 0), store)
  }

  /** There are such children, dying without a report in whichever planned
      crashes one likes. */
  lemma SoundChildExists(expected: SoakTruth.Expected, dies: Plan -> bool) returns (child: Child)
    ensures Sound(child, expected)
    ensures forall plan, store | CrashInCrawl(plan) :: Ends(child(plan, store).0, plan, dies(plan))
  {
    hide SoundTurn, CrashInCrawl, Ends;
    child := (plan, store) => ATurn(plan, store, expected, dies(plan), {});
    forall plan, store | CrashInCrawl(plan)
      ensures SoundTurn(plan, store, child(plan, store), expected) && Ends(child(plan, store).0, plan, dies(plan)) {
      assert SoundEnd(plan, store, expected, dies(plan), child(plan, store));
    }
  }

  /** The stores are as projected once what is pending is resumed. */
  ghost predicate InStep(s: State, store: SoakStore.Store) {
    SoakStore.AgreesOnceResumed(s, store) && StoreCheck.ChunksEverywhere(store)
  }

  /** What a sound turn gives the parent to judge. */
  lemma SoundCycle(args: Args, cycle: nat, final: bool, probe: set<LibId>, s: State, store: SoakStore.Store, d: Draws,
                   turn: (Outcome, SoakStore.Store), expected: SoakTruth.Expected)
    requires Good(args, s) && InStep(s, store) && Fair(args, d) && args.pages >= 1
    requires CrashInCrawl(Planned(args, cycle, final, probe, s, d).0)
    requires SoundTurn(Planned(args, cycle, final, probe, s, d).0, store, turn, expected)
    ensures var (plan, proj) := Planned(args, cycle, final, probe, s, d);
            var out := turn.0;
            var crashed := out.exit == Killed && plan.crash.Some?;
            var next := Committed(plan, proj, out.lines, crashed);
            && (out.exit == Ended || crashed)
            && Problems(plan, out.lines, crashed) == [] && InStep(next, turn.1)
            && (!crashed ==>
                  && out.facts.Some? && out.storeProblems == 0
                  && StoreCheck.RowsExact(out.rows, next, expected) && StoreCheck.Countable(next)
                  && !SoakFacts.Plain(plan.live, out.facts.value) && SoakFacts.Blamed(out.facts.value) == {})
  {
    hide SoakOracle.StateOk, SoakOracle.Stocked, Planned, Fair, Problems, Committed, SoakTruth.TrueTo, SoakFacts.Plain, SoakFacts.Blamed;
    hide StoreCheck.RowsExact, StoreCheck.Countable, StoreCheck.ChunksEverywhere, SoakStore.AgreesOnceResumed, CrashInCrawl;
    var (plan, proj) := Planned(args, cycle, final, probe, s, d);
    var out := turn.0;
    var ch :| SoundWith(plan, store, turn, expected, ch);
    SoakTruth.TrueCycle(args, cycle, final, probe, s, store, d, ch, out.lines, out.facts, out.rows, turn.1, expected);
  }

  /** A child that, whatever it did to the stores, at its end searched them for
      all it was asked and tells truly what was found. */
  ghost predicate Candid(child: Child) {
    forall plan, store :: CandidTurn(plan, child(plan, store))
  }

  ghost predicate CandidTurn(plan: Plan, turn: (Outcome, SoakStore.Store)) {
    turn.0.exit == Ended && turn.0.facts.Some? ==> SoakTruth.Searched(plan, turn.1, turn.0.facts.value)
  }

  lemma CandidIsUndamaged(plan: Plan, turn: (Outcome, SoakStore.Store), failedBefore: set<LibId>, tolerate: bool)
    requires CandidTurn(plan, turn) && turn.0.exit == Ended && turn.0.facts.Some?
    requires SoakFacts.InOrder(plan.live, turn.0.facts.value, failedBefore, tolerate)
    ensures SoakTruth.Undamaged(plan, turn.1)
  {
    hide SoakTruth.Undamaged, SoakTruth.Searched, SoakFacts.InOrder, SoakFacts.Plain;
    if !SoakTruth.Undamaged(plan, turn.1) {
      SoakTruth.DamageIsReported(plan, plan.live, turn.1, turn.0.facts.value, failedBefore, tolerate);
    }
  }

  /** One start of a child, up to what the parent concludes from it. */
  method RunCycle(args: Args, cycle: nat, final: bool, unreadable: set<LibId>, s: SoakPlanner.SoakState, d: Draws,
                  store: SoakStore.Store, child: Child, tolerate: bool, expected: SoakTruth.Expected)
    returns (next: SoakPlanner.SoakState, after: SoakStore.Store, fate: Fate, violations: seq<Violation>, ghost told: Plan)
    requires Good(args, s.Value()) && Fair(args, d) && args.pages >= 1
    ensures fresh(next)
    ensures fate == Lost ==> violations != []
    ensures forall v | v in violations :: !v.StillUnreadable?
    ensures violations == [] ==> Good(args, next.Value()) && (fate.Ran? ==> next.pending == [])
    ensures final ==> !fate.Crashed?
    ensures fate.Ran? ==>
              && (fate.judged.bad <==> violations != [])
              && Noticed(fate.judged)
              && (forall id | id in unreadable && id in fate.judged.live :: id in fate.judged.asked)
              && (!tolerate && !fate.judged.bad ==> fate.judged.unread !! unreadable)
    ensures Sound(child, expected) && InStep(s.Value(), store) ==>
              violations == [] && InStep(next.Value(), after) && (fate.Ran? ==> fate.judged.confined == {})
    ensures told == Planned(args, cycle, final, unreadable, s.Value(), d).0
    ensures fate.Ran? ==> fate.judged.live == told.live && LeftBy(child, (told, after))
    ensures Candid(child) && fate.Ran? && violations == [] ==> SoakTruth.Undamaged(told, after)
  {
    hide SoakOracle.StateOk, SoakOracle.Stocked, Planned, Fair, Noticed, Problems, Committed, InStep, SoundTurn;
    hide SoakFacts.Plain, SoakFacts.Blamed, StoreCheck.RowsExact, StoreCheck.Countable, CrashInCrawl, AskedLibs;
    hide SoakFacts.InOrder, CandidTurn, SoakTruth.Undamaged;
    var plan;
    plan, next := SoakPlanner.PlanCycle(args, cycle, final, unreadable, s, d);
    SoakOracle.PlannedOk(args, cycle, final, unreadable, s.Value(), d);
    SoakOracle.PlanShape(args, cycle, final, unreadable, s.Value(), d);
    ProbedAsked(args, cycle, final, unreadable, s.Value(), d);
    told := plan;
    var turn := child(plan, store);
    var out := turn.0;
    after := turn.1;
    if Sound(child, expected) && InStep(s.Value(), store) {
      SoundCycle(args, cycle, final, unreadable, s.Value(), store, d, turn, expected);
    }
    var crashed := out.exit == Killed && plan.crash.Some?;
    if out.exit == Other || (out.exit == Killed && !crashed) || (out.exit == Ended && out.facts == None) {
      return next, after, Lost, [ChildFailed(cycle)], told;
    }
    var problems := TakeBack(args, plan, next, out.lines, crashed);
    if crashed {
      return next, after, Crashed, Operations(cycle, problems), told;
    }
    var judged;
    judged, violations := Check(cycle, plan, next, out, unreadable, tolerate, problems, expected);
    fate := Ran(judged);
    if Candid(child) && violations == [] {
      assert CandidTurn(plan, turn);
      CandidIsUndamaged(plan, turn, unreadable, tolerate);
    }
  }

  /** The plans and stores of the cycles judged: with a candid child, nothing it
      was asked about is damaged in any of them. */
  ghost predicate Watched(child: Child, trail: seq<(Plan, SoakStore.Store)>, history: seq<Judged>) {
    && |trail| == |history|
    && (forall i | 0 <= i < |trail| :: trail[i].0.live == history[i].live && LeftBy(child, trail[i]))
    && (Candid(child) ==> forall i | 0 <= i < |trail| :: SoakTruth.Undamaged(trail[i].0, trail[i].1))
  }

  /** The child, told that plan, ended and left those stores. */
  ghost predicate LeftBy(child: Child, seen: (Plan, SoakStore.Store)) {
    exists store :: child(seen.0, store).0.exit == Ended && child(seen.0, store).1 == seen.1
  }

  lemma NothingWatched(child: Child)
    ensures Watched(child, [], [])
  {
  }

  lemma WatchedGrows(child: Child, trail: seq<(Plan, SoakStore.Store)>, history: seq<Judged>, seen: (Plan, SoakStore.Store), j: Judged)
    requires Watched(child, trail, history) && seen.0.live == j.live && LeftBy(child, seen) && (Candid(child) ==> SoakTruth.Undamaged(seen.0, seen.1))
    ensures Watched(child, trail + [seen], history + [j])
  {
    hide Candid, SoakTruth.Undamaged, LeftBy;
  }

  lemma StartInStep(args: Args)
    ensures InStep(NEW_STATE, map[])
  {
    assert SoakStore.ExecCrawls(map[], []) == map[];
  }

  /** The whole run.  It performs at most three cycles more than its limit.  In
      its history every library a judged cycle could not read is confined or a
      violation, the next judged cycle asks each confined one that is still
      live, and a library two successive judged cycles could not read ends the
      run in violation.  A run without a violation has nothing pending, and its
      last cycle confined nothing.  And there is no false alarm: when every
      child does to the stores what was planned, wherever it is killed, and
      tells the truth, the run reports nothing and ends with its first final
      start.  Nor is there a missed one: whatever the children do to the stores,
      when they search for all they are asked and tell truly what they found,
      damage to any of it in a judged cycle ends the run in violation. */
  method RunSoak(args: Args, limits: Limits, draws: nat -> Draws, child: Child, expected: SoakTruth.Expected)
    returns (report: Report, store: SoakStore.Store, ghost trail: seq<(Plan, SoakStore.Store)>)
    requires args.pages >= 1 && forall cycle :: Fair(args, draws(cycle))
    ensures report.cycles <= CycleLimit(limits) + 3
    ensures report.violations == [] ==> CycleLimit(limits) < report.cycles
    ensures (exists v | v in report.violations :: v.StillUnreadable?) ==> report.cycles == CycleLimit(limits) + 3
    ensures HistoryOk(report.history, limits.tolerate)
    ensures report.history != [] && report.history[|report.history| - 1].bad ==> report.violations != []
    ensures report.violations == [] ==>
              && report.pending == []
              && report.history != []
              && (!limits.tolerate ==> report.history[|report.history| - 1].confined == {})
    ensures Sound(child, expected) ==> report.violations == [] && report.cycles == CycleLimit(limits) + 1
    ensures report.violations == [] ==> Watched(child, trail, report.history)
  {
    hide Good, HistoryOk, Fair, Noticed, Sound, InStep, Candid, SoakTruth.Undamaged, Planned, Watched, LeftBy;
    trail := [];
    var s := new SoakPlanner.SoakState();
    StartOk(args);
    StartInStep(args);
    store := map[];
    var cycle, final, finals := 0, false, 0;
    var unreadable: set<LibId> := {};
    var violations: seq<Violation> := [];
    var history: seq<Judged> := [];
    NoHistory(limits.tolerate);
    NothingWatched(child);
    while true
      invariant fresh(s) && Good(args, s.Value())
      invariant violations == [] && HistoryOk(history, limits.tolerate)
      invariant if final then 1 <= finals < 3 && cycle == CycleLimit(limits) + finals && s.pending == []
                else finals == 0 && cycle <= CycleLimit(limits)
      invariant history == [] ==> unreadable == {}
      invariant history != [] ==> !history[|history| - 1].bad && unreadable == history[|history| - 1].confined
      invariant Watched(child, trail, history)
      invariant Sound(child, expected) ==> InStep(s.Value(), store) && unreadable == {} && !final
      decreases CycleLimit(limits) + 3 - cycle
    {
      if !final && (cycle >= limits.clock || (limits.maxCycles != 0 && cycle >= limits.maxCycles)) {
        final := true;
      }
      cycle := cycle + 1;
      if final {
        finals := finals + 1;
      }
      assert Fair(args, draws(cycle));
      var next, fate;
      ghost var told;
      next, store, fate, violations, told := RunCycle(args, cycle, final, unreadable, s, draws(cycle), store, child, limits.tolerate, expected);
      if fate == Lost {
        break;
      }
      s := next;
      if fate == Crashed {
        if violations != [] {
          break;
        }
        continue;
      }
      GrowHistory(history, fate.judged, unreadable, limits.tolerate);
      if violations == [] {
        WatchedGrows(child, trail, history, (told, store), fate.judged);
      }
      history := history + [fate.judged];
      trail := trail + [(told, store)];
      unreadable := fate.judged.confined;
      if violations != [] || (final && (unreadable == {} || finals >= 3)) {
        if final && unreadable != {} && violations == [] && !limits.tolerate {
          violations := violations + [StillUnreadable(cycle)];
        }
        break;
      }
    }
    report := Report(cycle, violations, history, s.pending);
  }
}
