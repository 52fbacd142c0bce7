/** Whole runs: through any sequence of cycles, crashes and resumes, the
    parent's projection and the stores agree once what is pending is resumed,
    and a child that does what it is told is never reported. */
module SoakRefinement {
  import opened SoakModel
  import opened SoakCommit
  import opened SoakOracle
  import opened SoakStore

  /* ---- the child's report, read back ---- */

  lemma {:induction false} DoneOfResumes(resume: seq<Crawl>)
    ensures Done(ResumeLines(resume)) == map[]
  {
    hide CrawlResult;
    if resume != [] {
      DoneOfResumes(resume[..|resume| - 1]);
    }
  }

  lemma {:induction false} DonePrinted(resume: seq<Crawl>, ops: seq<Op>, n: nat, ch: Choices)
    requires n <= |ops|
    ensures var done := Done(ResumeLines(resume) + OpLines(ops, n, ch));
            forall i: nat :: (i in done <==> i < n) && (i < n ==> done[i] == OpResult(ops[i], i, ch))
  {
    hide OpResult, ResumeLines;
    var lines := ResumeLines(resume) + OpLines(ops, n, ch);
    if n == 0 {
      assert lines == ResumeLines(resume);
      DoneOfResumes(resume);
    } else {
      DonePrinted(resume, ops, n - 1, ch);
      assert lines[..|lines| - 1] == ResumeLines(resume) + OpLines(ops, n - 1, ch);
    }
  }

  lemma {:induction false} ResumedPrinted(resume: seq<Crawl>, ops: seq<Op>, n: nat, ch: Choices)
    requires n <= |ops|
    ensures Resumed(ResumeLines(resume) + OpLines(ops, n, ch)) == Resumed(ResumeLines(resume))
  {
    hide OpResult, ResumeLines;
    var lines := ResumeLines(resume) + OpLines(ops, n, ch);
    if n == 0 {
      assert lines == ResumeLines(resume);
    } else {
      ResumedPrinted(resume, ops, n - 1, ch);
      assert lines[..|lines| - 1] == ResumeLines(resume) + OpLines(ops, n - 1, ch);
    }
  }

  /** A crawl's own result is the planned outcome. */
  lemma CrawlAsPlanned(c: Crawl)
    ensures CrawlOutcome(c, CrawlResult(c)) == []
  {
    OutcomeExact(c, CrawlResult(c));
    if p :| p in c.pages && p.fail {
      assert p.no in Failing(c.pages);
    }
    forall p | p in c.pages ensures Get(CrawlResult(c).pages, p.no) == Some(WantedPage(c, p)) {
      assert p.no in Numbers(c.pages);
    }
  }

  lemma NoneResumed()
    ensures forall resumed :: ResumeProblems([], resumed) == []
  {
  }

  lemma OneResumed(c: Crawl)
    ensures Resumed(ResumeLines([c])) == map[c.job := CrawlResult(c)]
  {
    hide CrawlResult;
    assert [c][..0] == [];
    var line := ResumeLine(c.job, CrawlResult(c));
    assert ResumeLines([c]) == [line];
    hide ResumeLines;
    assert [line][..0] == [];
  }

  lemma OneAsPlanned(c: Crawl, resumed: map<Job, Result>)
    requires resumed == map[c.job := CrawlResult(c)]
    ensures ResumeProblems([c], resumed) == []
  {
    CrawlAsPlanned(c);
    hide CrawlOutcome, CrawlResult;
    assert [c][..0] == [];
  }

  lemma ResumesAsPlanned(resume: seq<Crawl>)
    requires |resume| <= 1
    ensures ResumeProblems(resume, Resumed(ResumeLines(resume))) == []
  {
    hide ResumeProblems, Resumed, ResumeLines, CrawlResult;
    NoneResumed();
    if resume != [] {
      assert resume == [resume[0]];
      OneResumed(resume[0]);
      OneAsPlanned(resume[0], Resumed(ResumeLines(resume)));
    }
  }

  /** The planned crash is in the plan's last operation. */
  predicate CrashIsLast(plan: Plan) {
    CrashInCrawl(plan) && (plan.crash.Some? ==> plan.crash.value.opIndex == |plan.ops| - 1)
  }

  lemma ProblemsStep(plan: Plan, done: map<nat, Result>, crashed: bool, n: nat)
    requires n <= |plan.ops|
    ensures OpProblems(plan, done, crashed, n) ==
              if n == 0 then [] else OpProblems(plan, done, crashed, n - 1) + OpProblem(plan, done, crashed, n - 1)
  {
    hide OpProblem;
  }

  lemma {:induction false} OpsAsPlanned(plan: Plan, done: map<nat, Result>, ch: Choices, n: nat)
    requires CrashIsLast(plan) && n <= |plan.ops|
    requires forall i: nat :: (i in done <==> i < Ran(plan, ch)) && (i < Ran(plan, ch) ==> done[i] == OpResult(plan.ops[i], i, ch))
    ensures OpProblems(plan, done, Killed(plan, ch), n) == []
  {
    hide OpProblem, OpProblems, OpResult, Killed, Ran;
    ProblemsStep(plan, done, Killed(plan, ch), n);
    if n > 0 {
      OpsAsPlanned(plan, done, ch, n - 1);
      OpAsPlanned(plan, done, ch, n - 1);
    }
  }

  lemma OpAsPlanned(plan: Plan, done: map<nat, Result>, ch: Choices, i: nat)
    requires CrashIsLast(plan) && i < |plan.ops|
    requires (i in done <==> i < Ran(plan, ch)) && (i < Ran(plan, ch) ==> done[i] == OpResult(plan.ops[i], i, ch))
    ensures OpProblem(plan, done, Killed(plan, ch), i) == []
  {
    if plan.ops[i].CrawlOp? {
      CrawlAsPlanned(plan.ops[i].crawl);
    }
    hide CrawlResult, CrawlOutcome;
  }

  /** A child that does what it is told is never reported, killed or not. */
  lemma NothingReported(plan: Plan, ch: Choices)
    requires CrashIsLast(plan) && |plan.resume| <= 1
    ensures Problems(plan, Printed(plan, ch), Killed(plan, ch)) == []
  {
    DonePrinted(plan.resume, plan.ops, Ran(plan, ch), ch);
    ResumedPrinted(plan.resume, plan.ops, Ran(plan, ch), ch);
    ResumesAsPlanned(plan.resume);
    OpsAsPlanned(plan, Done(Printed(plan, ch)), ch, |plan.ops|);
  }

  /* ---- what the commit makes of it ---- */

  predicate OneDocument(ops: seq<Op>) {
    forall i | 0 < i < |ops| :: !ops[i].DocumentOp?
  }

  lemma FillDocumentLibs(s: State, id: LibId, key: nat, r: Result)
    ensures FillDocument(s, id, key, r).libs == Filled(s.libs, FillOf(id, key, r))
  {
  }

  lemma {:induction false} CommitFills(s: State, plan: Plan, done: map<nat, Result>, crashed: bool, n: nat, ch: Choices)
    requires CrashIsLast(plan) && OneDocument(plan.ops) && n <= |plan.ops|
    requires plan.ops != [] && plan.ops[0].DocumentOp? ==> 0 in done && done[0] == OpResult(plan.ops[0], 0, ch)
    ensures CommitOps(s, plan, done, crashed, n).libs == if n == 0 then s.libs else Filled(s.libs, FillFor(plan.ops, ch))
  {
    hide FillDocument, Filled, OpResult;
    if n > 0 {
      CommitFills(s, plan, done, crashed, n - 1, ch);
      if n == 1 {
        if plan.ops[0].DocumentOp? {
          FillDocumentLibs(s, plan.ops[0].lib, plan.ops[0].key, done[0]);
        } else {
          NothingToFill(s.libs);
        }
      }
    }
  }

  lemma CommittedLibs(plan: Plan, proj: State, ch: Choices)
    requires CrashIsLast(plan) && OneDocument(plan.ops)
    ensures Committed(plan, proj, Printed(plan, ch), Killed(plan, ch)).libs == Filled(proj.libs, FillFor(plan.ops, ch))
  {
    var lines := Printed(plan, ch);
    DonePrinted(plan.resume, plan.ops, Ran(plan, ch), ch);
    hide Filled, OpResult, CommitOps, Done, Resumed;
    CommitFills(proj.(pending := StillPending(proj.pending, Resumed(lines))), plan, Done(lines), Killed(plan, ch), |plan.ops|, ch);
    if plan.ops == [] {
      NothingToFill(proj.libs);
    }
  }

  /* ---- the plan's shape ---- */

  lemma DocumentFirst(cycle: nat, s: State, d: Draws)
    ensures var (s1, docs) := StageDocument(cycle, s, d);
            OneDocument(docs + StageDelete(cycle, s1, d).1)
  {
    hide DeleteFrom;
  }

  lemma StagesOneDocument(args: Args, cycle: nat, final: bool, s: State, d: Draws)
    ensures OneDocument(Stages(args, cycle, final, s, d).1)
  {
    if !final {
      DocumentFirst(cycle, StageSwitch(args, cycle, s), d);
    }
    hide StageSwitch, StageDocument, StageDelete, StageRefresh, StageCreate;
  }

  lemma OneDocumentThenCrawls(ops: seq<Op>, crawls: seq<Crawl>)
    requires OneDocument(ops)
    ensures OneDocument(ops + CrawlOps(crawls))
  {
    var all := ops + CrawlOps(crawls);
    forall i | 0 < i < |all| ensures !all[i].DocumentOp? {
      if i < |ops| {
        assert all[i] == ops[i];
      } else {
        assert all[i] == CrawlOps(crawls)[i - |ops|];
      }
    }
  }

  lemma ShapeOf(args: Args, cycle: nat, final: bool, probe: set<LibId>, s: State, d: Draws)
    ensures var plan := Planned(args, cycle, final, probe, s, d).0;
            CrashIsLast(plan) && OneDocument(plan.ops)
  {
    PlanShape(args, cycle, final, probe, s, d);
    StagesOneDocument(args, cycle, final, s, d);
    hide Stages, ApplyCrawls, Facts, GoneFacts, Probed, OneDocument, CrawlOps;
    var (t, ops, crawls) := Stages(args, cycle, final, s, d);
    OneDocumentThenCrawls(ops, crawls);
  }

  /** The operations of a planned cycle, as its stages made them. */
  lemma PlannedOps(args: Args, cycle: nat, final: bool, probe: set<LibId>, s: State, d: Draws)
    ensures var (plan, proj) := Planned(args, cycle, final, probe, s, d);
            var (t, ops, crawls) := Stages(args, cycle, final, s, d);
            && plan.ops == ops + CrawlOps(crawls) && plan.resume == s.pending
            && proj.libs == ApplyCrawls(t, crawls).libs
            && (plan.crash.Some? ==> crawls != [])
  {
    hide Stages, ApplyCrawls, Facts, GoneFacts, Probed;
  }

  lemma FillForFirst(ops: seq<Op>, crawls: seq<Crawl>, ch: Choices)
    ensures FillFor(ops + CrawlOps(crawls), ch) == FillFor(ops, ch)
  {
    if ops != [] {
      assert (ops + CrawlOps(crawls))[0] == ops[0];
    } else if crawls != [] {
      assert (ops + CrawlOps(crawls))[0] == CrawlOps(crawls)[0];
    }
  }

  /* ---- one cycle ---- */

  /** All of a plan's operations run on stores the state agrees with: the
      filled-in projection matches what they leave. */
  lemma OpsMatch(args: Args, cycle: nat, final: bool, s: State, store: Store, d: Draws, ch: Choices)
    requires StateOk(args, s) && Agrees(s, store) && Fair(args, d) && args.pages >= 1 && Fresh(store, ch)
    ensures var (t, ops, crawls) := Stages(args, cycle, final, s, d);
            Matches(Filled(ApplyCrawls(t, crawls).libs, FillFor(ops, ch)),
                    ExecCrawls(ExecOps(store, ops, |ops|, ch), crawls))
  {
    hide StateOk, Matches, Filled, Fair, Fresh, FillFor, StageDocument, StageDelete, StageRefresh, StageCreate;
    var (t, ops, crawls) := Stages(args, cycle, final, s, d);
    if final {
      assert FillFor(ops, ch) == NoFill by { NoOpsNoFill(ch); }
      NothingToFill(s.libs);
    } else {
      hide Stages;
      StagesOk(args, cycle, final, s, d);
      StagesMatch(args, cycle, s, store, d, ch);
      CrawlsMatch(args, t, ExecOps(store, ops, |ops|, ch), FillFor(ops, ch), crawls, |crawls|);
      assert crawls[..|crawls|] == crawls;
    }
  }

  lemma NoOpsNoFill(ch: Choices)
    ensures FillFor([], ch) == NoFill
  {
  }

  lemma LastCrawl(store: Store, crawls: seq<Crawl>)
    requires crawls != []
    ensures ExecCrawls(store, crawls) == ExecCrawl(ExecCrawls(store, crawls[..|crawls| - 1]), crawls[|crawls| - 1])
  {
    hide ExecCrawl;
  }

  lemma LeavesKilled(plan: Plan, store: Store, ch: Choices)
    requires CrashIsLast(plan) && Killed(plan, ch)
    ensures var n := |plan.ops| - 1;
            Leaves(plan, store, ch)
            == ExecKilled(ExecOps(ExecCrawls(store, plan.resume), plan.ops, n, ch), plan.ops[n].crawl, ch.kept)
  {
    hide ExecKilled, ExecOps, ExecCrawls;
  }

  lemma LastOp(ops: seq<Op>, crawls: seq<Crawl>)
    requires crawls != []
    ensures var all := ops + CrawlOps(crawls);
            |all| == |ops| + |crawls| && all[|all| - 1] == CrawlOp(crawls[|crawls| - 1])
  {
  }

  /** A killed cycle, its last crawl then resumed, is the cycle run to its end. */
  lemma {:induction false} KilledThenResumed(plan: Plan, store: Store, ch: Choices, ops: seq<Op>, crawls: seq<Crawl>)
    requires CrashIsLast(plan) && plan.ops == ops + CrawlOps(crawls) && crawls != [] && Killed(plan, ch)
    ensures plan.ops[|plan.ops| - 1] == CrawlOp(crawls[|crawls| - 1])
    ensures ExecCrawl(Leaves(plan, store, ch), crawls[|crawls| - 1])
            == ExecCrawls(ExecOps(ExecCrawls(store, plan.resume), ops, |ops|, ch), crawls)
  {
    LastOp(ops, crawls);
    LeavesKilled(plan, store, ch);
    hide ExecCrawl, ExecKilled, ExecOps, ExecCrawls, CrawlOps, Leaves;
    var n := |crawls| - 1;
    var resumed := ExecCrawls(store, plan.resume);
    ExecThenCrawls(resumed, ops, crawls, n, ch);
    ResumeCompletes(ExecCrawls(ExecOps(resumed, ops, |ops|, ch), crawls[..n]), crawls[n], ch.kept);
    LastCrawl(ExecOps(resumed, ops, |ops|, ch), crawls);
  }

  lemma RunToEnd(plan: Plan, store: Store, ch: Choices, ops: seq<Op>, crawls: seq<Crawl>)
    requires CrashIsLast(plan) && plan.ops == ops + CrawlOps(crawls) && !Killed(plan, ch)
    ensures Leaves(plan, store, ch) == ExecCrawls(ExecOps(ExecCrawls(store, plan.resume), ops, |ops|, ch), crawls)
  {
    hide ExecCrawl, ExecKilled, ExecOp, ExecOps, ExecCrawls;
    ExecThenCrawls(ExecCrawls(store, plan.resume), ops, crawls, |crawls|, ch);
    assert crawls[..|crawls|] == crawls;
  }

  /** The stores after a cycle, once what it was killed in is resumed, are
      those of the cycle run to its end. */
  lemma LeavesOnceResumed(plan: Plan, store: Store, ch: Choices, ops: seq<Op>, crawls: seq<Crawl>)
    requires CrashIsLast(plan) && plan.ops == ops + CrawlOps(crawls) && (plan.crash.Some? ==> crawls != [])
    ensures var whole := ExecCrawls(ExecOps(ExecCrawls(store, plan.resume), ops, |ops|, ch), crawls);
            if Killed(plan, ch) then ExecCrawl(Leaves(plan, store, ch), plan.ops[|plan.ops| - 1].crawl) == whole
            else Leaves(plan, store, ch) == whole
  {
    hide ExecCrawl, ExecOps, ExecCrawls, Leaves, CrawlOps;
    if Killed(plan, ch) {
      KilledThenResumed(plan, store, ch, ops, crawls);
    } else {
      RunToEnd(plan, store, ch, ops, crawls);
    }
  }

  /** The state and the stores after one cycle. */
  function Cycle(args: Args, cycle: nat, final: bool, probe: set<LibId>, s: State, store: Store, d: Draws, ch: Choices)
    : (State, Store)
  {
    PlanShape(args, cycle, final, probe, s, d);
    var (plan, proj) := Planned(args, cycle, final, probe, s, d);
    (Committed(plan, proj, Printed(plan, ch), Killed(plan, ch)), Leaves(plan, store, ch))
  }

  lemma SameDocuments(store: Store, crawls: seq<Crawl>, ch: Choices)
    requires |crawls| <= 1 && Fresh(store, ch)
    ensures Fresh(ExecCrawls(store, crawls), ch)
  {
    hide Landed;
    if crawls != [] {
      assert crawls[..0] == [];
      assert ExecCrawls(store, crawls) == ExecCrawl(store, crawls[0]);
    }
  }

  /** One cycle keeps the agreement, reports nothing, and when it is not
      killed nothing waits and the state and the stores are equal. */
  lemma CycleRefines(args: Args, cycle: nat, final: bool, probe: set<LibId>, s: State, store: Store, d: Draws, ch: Choices)
    requires StateOk(args, s) && Stocked(s) && AgreesOnceResumed(s, store) && Fair(args, d) && args.pages >= 1
    requires Fresh(store, ch)
    ensures var (plan, proj) := Planned(args, cycle, final, probe, s, d);
            var (s', store') := Cycle(args, cycle, final, probe, s, store, d, ch);
            && CrashIsLast(plan)
            && Problems(plan, Printed(plan, ch), Killed(plan, ch)) == []
            && StateOk(args, s') && Stocked(s') && AgreesOnceResumed(s', store')
            && (!Killed(plan, ch) ==> s'.pending == [] && Agrees(s', store'))
            && (Killed(plan, ch) ==> s'.pending == [plan.ops[|plan.ops| - 1].crawl])
  {
    hide StateOk, Stocked, Fair, Fresh, Planned, Stages, Matches, Filled, Committed, Leaves, Problems, Printed, FillFor;
    var (plan, proj) := Planned(args, cycle, final, probe, s, d);
    var (t, ops, crawls) := Stages(args, cycle, final, s, d);
    ShapeOf(args, cycle, final, probe, s, d);
    PlannedOps(args, cycle, final, probe, s, d);
    PlannedOk(args, cycle, final, probe, s, d);
    SameDocuments(store, s.pending, ch);
    OpsMatch(args, cycle, final, s, ExecCrawls(store, s.pending), d, ch);
    FillForFirst(ops, crawls, ch);
    LeavesOnceResumed(plan, store, ch, ops, crawls);
    NothingReported(plan, ch);
    CommittedLibs(plan, proj, ch);
    CommitOk(args, plan, proj, Printed(plan, ch), Killed(plan, ch));
    PendingAfterCommit(plan, proj, Printed(plan, ch), Killed(plan, ch));
    KilledBeforeLast(plan, ch);
    OnePending(Leaves(plan, store, ch), plan.ops);
  }

  lemma KilledBeforeLast(plan: Plan, ch: Choices)
    requires CrashIsLast(plan)
    ensures Killed(plan, ch) ==> plan.crash.value.opIndex !in Done(Printed(plan, ch))
  {
    DonePrinted(plan.resume, plan.ops, Ran(plan, ch), ch);
  }

  lemma OnePending(store: Store, ops: seq<Op>)
    ensures ExecCrawls(store, []) == store
    ensures forall c :: ExecCrawls(store, [c]) == ExecCrawl(store, c)
  {
    forall c ensures ExecCrawls(store, [c]) == ExecCrawl(store, c) {
      assert [c][..0] == [];
    }
  }

  /* ---- every run ---- */

  datatype Step = Step(final: bool, probe: set<LibId>, draws: Draws, choices: Choices)

  /** The parent's state and the stores after a run's cycles, from nothing. */
  function Run(args: Args, steps: seq<Step>): (State, Store) {
    if steps == [] then (NEW_STATE, map[])
    else
      var (s, store) := Run(args, steps[..|steps| - 1]);
      var t := steps[|steps| - 1];
      Cycle(args, |steps|, t.final, t.probe, s, store, t.draws, t.choices)
  }

  /** Every draw is fair, and every identity given out was new at the time. */
  ghost predicate Possible(args: Args, steps: seq<Step>) {
    steps != [] ==>
      var t := steps[|steps| - 1];
      && Possible(args, steps[..|steps| - 1])
      && Fair(args, t.draws) && Fresh(Run(args, steps[..|steps| - 1]).1, t.choices)
  }

  lemma StartAgrees(args: Args)
    ensures StateOk(args, NEW_STATE) && Stocked(NEW_STATE) && AgreesOnceResumed(NEW_STATE, map[])
  {
    assert ExecCrawls(map[], []) == map[];
  }

  /** Refinement over whole runs: whatever is drawn, wherever the children are
      killed and whatever they had stored by then, resuming the pending crawl
      makes the stores exactly the projected state. */
  lemma {:induction false} RunRefines(args: Args, steps: seq<Step>)
    requires args.pages >= 1 && Possible(args, steps)
    ensures var (s, store) := Run(args, steps);
            StateOk(args, s) && Stocked(s) && AgreesOnceResumed(s, store)
  {
    if steps == [] {
      StartAgrees(args);
    } else {
      hide StateOk, Stocked, AgreesOnceResumed, Cycle, Fair, Fresh;
      var before := steps[..|steps| - 1];
      var t := steps[|steps| - 1];
      RunRefines(args, before);
      var (s, store) := Run(args, before);
      CycleRefines(args, |steps|, t.final, t.probe, s, store, t.draws, t.choices);
    }
  }

  /** The item is in the stores at that version. */
  ghost predicate Stored(store: Store, f: Item) {
    && f.lib in store
    && match f
       case Page(id, k, v) => k in store[id].pages && store[id].pages[k] == v
       case Document(id, k, v) => exists d :: d in store[id].docs && store[id].docs[d].key == k && store[id].docs[d].version == v
  }

  lemma FactsAreStored(s: State, store: Store, f: Item)
    requires Agrees(s, store)
    ensures f in Facts(s) <==> Stored(store, f)
  {
    if f.lib in s.libs {
      assert !Bare(s.libs[f.lib]);
      var lib, shelf := s.libs[f.lib], store[f.lib];
      assert LibAgrees(lib, shelf);
      if f.Document? {
        if f.key in lib.docs {
          assert RowOf(shelf.docs, f.key, lib.docs[f.key]);
        }
        if d :| d in shelf.docs && shelf.docs[d].key == f.key && shelf.docs[d].version == f.version {
          assert KnownDocument(lib.docs, d, shelf.docs[d]);
          assert RowOf(shelf.docs, f.key, lib.docs[f.key]);
        }
      }
    }
  }

  lemma FilledFacts(s: State, t: State, fill: Fill)
    requires t.libs == Filled(s.libs, fill)
    ensures Facts(t) == Facts(s) && t.libs.Keys == s.libs.Keys
  {
    forall f ensures f in Facts(t) <==> f in Facts(s) {
      if f.lib in s.libs {
        assert t.libs[f.lib].stored == s.libs[f.lib].stored;
        assert t.libs[f.lib].docs.Keys == s.libs[f.lib].docs.Keys;
      }
    }
  }

  /** In every run, the next cycle's child is not reported; and when it was not
      killed, nothing is pending, the stores equal the projection, every answer
      asked for is in the stores, and no answer required absent is. */
  lemma NextCycle(args: Args, steps: seq<Step>, next: Step)
    requires args.pages >= 1 && Possible(args, steps + [next])
    ensures var (s, store) := Run(args, steps);
            var (plan, proj) := Planned(args, |steps| + 1, next.final, next.probe, s, next.draws);
            var (s', store') := Run(args, steps + [next]);
            && CrashInCrawl(plan)
            && Problems(plan, Printed(plan, next.choices), Killed(plan, next.choices)) == []
            && |s'.pending| <= 1
            && (!Killed(plan, next.choices) ==>
                  && s'.pending == [] && Agrees(s', store')
                  && (forall f | f in plan.ask :: Stored(store', f))
                  && (forall g | g in plan.absent :: !Stored(store', g.item) && (g.deleted <==> g.item.lib !in store')))
  {
    var all := steps + [next];
    assert all[..|all| - 1] == steps;
    RunRefines(args, steps);
    var (s, store) := Run(args, steps);
    var (plan, proj) := Planned(args, |steps| + 1, next.final, next.probe, s, next.draws);
    NextAgrees(args, |steps| + 1, s, store, next);
    hide StateOk, Stocked, Fair, Fresh, Planned, Agrees, Cycle, Problems, Printed, Stored;
    var (s', store') := Run(args, all);
    if !Killed(plan, next.choices) {
      AskedAreStored(args, |steps| + 1, s, store, next);
    }
  }

  lemma NextAgrees(args: Args, cycle: nat, s: State, store: Store, t: Step)
    requires StateOk(args, s) && Stocked(s) && AgreesOnceResumed(s, store) && Fair(args, t.draws) && args.pages >= 1
    requires Fresh(store, t.choices)
    ensures var plan := Planned(args, cycle, t.final, t.probe, s, t.draws).0;
            var (s', store') := Cycle(args, cycle, t.final, t.probe, s, store, t.draws, t.choices);
            && CrashInCrawl(plan)
            && Problems(plan, Printed(plan, t.choices), Killed(plan, t.choices)) == []
            && |s'.pending| <= 1 && (!Killed(plan, t.choices) ==> s'.pending == [] && Agrees(s', store'))
  {
    hide StateOk, Stocked, Fair, Fresh, Planned, Agrees, Cycle, Problems, Printed;
    CycleRefines(args, cycle, t.final, t.probe, s, store, t.draws, t.choices);
  }

  lemma HeldIsStored(s: State, proj: State, store: Store, ask: set<Item>)
    requires Agrees(s, store) && Facts(s) == Facts(proj) && ask <= Facts(proj)
    ensures forall f | f in ask :: Stored(store, f)
  {
    hide Agrees, Facts, Stored;
    forall f | f in ask ensures Stored(store, f) {
      FactsAreStored(s, store, f);
    }
  }

  lemma GoneIsNotStored(args: Args, s: State, proj: State, store: Store, absent: set<Absent>)
    requires Agrees(s, store) && Facts(s) == Facts(proj) && store.Keys == proj.libs.Keys
    requires StateOk(args, proj) && absent <= GoneFacts(proj)
    ensures forall g | g in absent :: !Stored(store, g.item) && (g.deleted <==> g.item.lib !in store)
  {
    hide Agrees, Facts, Stored, StateOk, GoneFacts;
    forall g | g in absent ensures !Stored(store, g.item) && (g.deleted <==> g.item.lib !in store) {
      GoneIsNotHeld(args, proj, g);
      FactsAreStored(s, store, g.item);
    }
  }

  /** The oracle is sound for the stores themselves. */
  lemma AskedAreStored(args: Args, cycle: nat, s: State, store: Store, t: Step)
    requires StateOk(args, s) && Stocked(s) && AgreesOnceResumed(s, store) && Fair(args, t.draws) && args.pages >= 1
    requires Fresh(store, t.choices)
    requires !Killed(Planned(args, cycle, t.final, t.probe, s, t.draws).0, t.choices)
    ensures var plan := Planned(args, cycle, t.final, t.probe, s, t.draws).0;
            var store' := Cycle(args, cycle, t.final, t.probe, s, store, t.draws, t.choices).1;
            && (forall f | f in plan.ask :: Stored(store', f))
            && (forall g | g in plan.absent :: !Stored(store', g.item) && (g.deleted <==> g.item.lib !in store'))
  {
    hide StateOk, Stocked, Fair, Fresh, Planned, Cycle, Facts, GoneFacts, Stored, Filled, Agrees, Consistent, AgreesOnceResumed, Killed;
    var (plan, proj) := Planned(args, cycle, t.final, t.probe, s, t.draws);
    var (s', store') := Cycle(args, cycle, t.final, t.probe, s, store, t.draws, t.choices);
    CycleFacts(args, cycle, s, store, t);
    OracleConsistent(args, cycle, t.final, t.probe, s, t.draws);
    PlannedOk(args, cycle, t.final, t.probe, s, t.draws);
    HeldIsStored(s', proj, store', plan.ask);
    GoneIsNotStored(args, s', proj, store', plan.absent);
  }

  lemma CycleFacts(args: Args, cycle: nat, s: State, store: Store, t: Step)
    requires StateOk(args, s) && Stocked(s) && AgreesOnceResumed(s, store) && Fair(args, t.draws) && args.pages >= 1
    requires Fresh(store, t.choices)
    requires !Killed(Planned(args, cycle, t.final, t.probe, s, t.draws).0, t.choices)
    ensures var proj := Planned(args, cycle, t.final, t.probe, s, t.draws).1;
            var (s', store') := Cycle(args, cycle, t.final, t.probe, s, store, t.draws, t.choices);
            Agrees(s', store') && Facts(s') == Facts(proj) && s'.libs.Keys == proj.libs.Keys == store'.Keys
  {
    var (plan, proj) := Planned(args, cycle, t.final, t.probe, s, t.draws);
    ShapeOf(args, cycle, t.final, t.probe, s, t.draws);
    NextAgrees(args, cycle, s, store, t);
    CommittedLibs(plan, proj, t.choices);
    var (s', store') := Cycle(args, cycle, t.final, t.probe, s, store, t.draws, t.choices);
    hide StateOk, Fair, Fresh, Planned, Facts, Filled, Committed, Leaves, Bare, LibAgrees;
    FilledFacts(proj, s', FillFor(plan.ops, t.choices));
  }
}
