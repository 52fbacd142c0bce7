/** What a short run covers.  The script's introduction says that each kind of
    operation, a crash inside a crawl among them, happens within the first
    five cycles.  It is so of a model switch; of crawls, documents and
    refreshes with room for a library; of a delete with room for two; and of a
    crash only when a cycle that may crash crawls. */
module SoakCoverage {
  import opened SoakModel
  import opened SoakCommit
  import opened SoakOracle
  import SoakStore
  import SoakRefinement

  function One(b: bool): nat {
    if b then 1 else 0
  }

  predicate SwitchDue(args: Args, cycle: nat, s: State) {
    (args.switchEvery != 0 && cycle % args.switchEvery == 0) || (cycle == 5 && s.counts.switches == 0)
  }

  /** A document is drawn, or due because none came yet; so with a delete, for
      which a second library must be left. */
  predicate DocumentComes(cycle: nat, s: State, d: Draws) {
    |s.libs| > 0 && (d.docRoll || (2 <= cycle <= 5 && s.counts.documents == 0))
  }

  predicate DeleteComes(cycle: nat, s: State, d: Draws) {
    |s.libs| >= 2 && (d.deleteRoll || (3 <= cycle <= 5 && s.counts.deletes == 0))
  }

  function NewWanted(cycle: nat, d: Draws): nat {
    if cycle == 1 then 2 else One(d.createRoll)
  }

  lemma DrawnExactly(cycle: nat, s: State, d: Draws)
    ensures (DocumentDue(cycle, s, d) <==> DocumentComes(cycle, s, d)) && (DeleteDue(cycle, s, d) <==> DeleteComes(cycle, s, d))
    ensures Wanted(cycle, d) == NewWanted(cycle, d) && (|s.libs| == 0 <==> s.libs.Keys == {})
  {
    assert |s.libs| == |s.libs.Keys|;
  }

  /** The first `n` turns of a run are ordinary cycles, not the last start. */
  predicate Ordinary(turns: seq<Turn>, n: nat) {
    |turns| >= n && forall i | 0 <= i < n :: !turns[i].final
  }

  /** A crawl is planned in the turn that follows. */
  predicate HasCrawl(args: Args, cycle: nat, s: State, t: Turn) {
    Stages(args, cycle, t.final, s, t.draws).2 != []
  }

  /* ---- what a stage does to the counters and the live libraries ---- */

  lemma EarlyCounts(args: Args, cycle: nat, s: State, d: Draws)
    requires Fair(args, d)
    ensures var s2 := StageDelete(cycle, StageDocument(cycle, StageSwitch(args, cycle, s), d).0, d).0;
            && s2.counts == s.counts.(
                 switches := s.counts.switches + One(SwitchDue(args, cycle, s)),
                 documents := s.counts.documents + One(DocumentComes(cycle, s, d)),
                 deletes := s.counts.deletes + One(DeleteComes(cycle, s, d)))
            && |s2.libs| == |s.libs| - One(DeleteComes(cycle, s, d))
  {
    hide DocumentComes, DeleteComes, DeleteDue;
    var s0 := StageSwitch(args, cycle, s);
    var s1 := StageDocument(cycle, s0, d).0;
    DrawnExactly(cycle, s0, d);
    DocumentDueSame(args, cycle, s, d, s1);
    assert s1.libs.Keys == s.libs.Keys;
    assert s.libs.Keys != {} ==> d.docLib(s.libs.Keys) in s.libs.Keys;
    DeleteCounts(cycle, s1, d);
  }

  /** Neither a switch nor a document changes what else comes. */
  lemma DocumentDueSame(args: Args, cycle: nat, s: State, d: Draws, s1: State)
    requires s1 == StageDocument(cycle, StageSwitch(args, cycle, s), d).0
    ensures DocumentComes(cycle, StageSwitch(args, cycle, s), d) <==> DocumentComes(cycle, s, d)
    ensures s1.libs.Keys == s.libs.Keys && |s1.libs| == |s.libs| && (DeleteComes(cycle, s1, d) <==> DeleteComes(cycle, s, d))
  {
    assert s1.libs.Keys == s.libs.Keys;
    assert |s1.libs| == |s1.libs.Keys| && |s.libs| == |s.libs.Keys|;
  }

  lemma DeleteCounts(cycle: nat, s: State, d: Draws)
    requires Chooses(d.deleteLib)
    ensures var t := StageDelete(cycle, s, d).0;
            && t.counts == s.counts.(deletes := s.counts.deletes + One(DeleteComes(cycle, s, d)))
            && |t.libs| == |s.libs| - One(DeleteComes(cycle, s, d))
  {
    hide GoneOf, Last;
    DrawnExactly(cycle, s, d);
    if DeleteComes(cycle, s, d) {
      var id := d.deleteLib(s.libs.Keys);
      assert s.libs.Keys != {};
      assert (s.libs - {id}).Keys == s.libs.Keys - {id};
    }
  }

  lemma RefreshCounts(cycle: nat, s: State, d: Draws)
    requires Chooses(d.refreshLib)
    ensures var (t, crawls) := StageRefresh(cycle, s, d);
            && t.counts == s.counts.(refreshes := s.counts.refreshes + One(RefreshDue(cycle, s, d)))
            && |t.libs| == |s.libs| && (crawls != [] <==> RefreshDue(cycle, s, d))
  {
    hide Surveyed, PageSpecs;
    if RefreshDue(cycle, s, d) {
      var id := d.refreshLib(s.libs.Keys);
      assert id in s.libs;
      assert RefreshIn(s, id, d.refresh).libs.Keys == s.libs.Keys;
    }
  }

  lemma CreateOneCounts(args: Args, cycle: nat, s: State)
    requires SoakStore.NamesBelow(s)
    ensures var t := CreateIn(args, cycle, s);
            SoakStore.NamesBelow(t) && t.counts == s.counts.(crawls := s.counts.crawls + 1) && |t.libs| == |s.libs| + 1
  {
    hide NewLibrary;
    var id := LibId(cycle, s.nextLib);
    assert id !in s.libs && s.libs[id := NewLibrary(args)].Keys == s.libs.Keys + {id};
  }

  lemma {:induction false} CreateCounts(args: Args, cycle: nat, s: State, d: Draws, wanted: nat)
    requires SoakStore.NamesBelow(s)
    ensures var (t, crawls) := StageCreate(args, cycle, s, d, wanted);
            && SoakStore.NamesBelow(t) && t.counts == s.counts.(crawls := s.counts.crawls + |crawls|)
            && |t.libs| == |s.libs| + |crawls|
            && |crawls| == if |s.libs| >= args.libraries then 0 else Min(wanted, args.libraries - |s.libs|)
  {
    hide NewLibrary, PageSpecs, SoakStore.NamesBelow, CreateIn;
    if wanted > 0 {
      CreateCounts(args, cycle, s, d, wanted - 1);
      CreateOneCounts(args, cycle, StageCreate(args, cycle, s, d, wanted - 1).0);
    }
  }

  /** The libraries live when the cycle creates new ones. */
  function Room(cycle: nat, s: State, d: Draws): nat {
    if DeleteComes(cycle, s, d) && |s.libs| > 0 then |s.libs| - 1 else |s.libs|
  }

  /** How many libraries the cycle creates. */
  function Created(args: Args, cycle: nat, s: State, d: Draws): nat {
    if Room(cycle, s, d) >= args.libraries then 0 else Min(NewWanted(cycle, d), args.libraries - Room(cycle, s, d))
  }

  predicate Refreshes(cycle: nat, s: State, d: Draws) {
    Room(cycle, s, d) > 0 && (d.refreshRoll || (2 <= cycle <= 5 && s.counts.refreshes == 0))
  }

  /** One ordinary cycle: which counters move, and whether it crawls. */
  lemma StagesCounts(args: Args, cycle: nat, s: State, d: Draws)
    requires StateOk(args, s) && Stocked(s) && Fair(args, d)
    ensures var (t, _, crawls) := Stages(args, cycle, false, s, d);
            && t.counts == Counts(
                 s.counts.switches + One(SwitchDue(args, cycle, s)),
                 s.counts.documents + One(DocumentComes(cycle, s, d)),
                 s.counts.deletes + One(DeleteComes(cycle, s, d)),
                 s.counts.refreshes + One(Refreshes(cycle, s, d)),
                 s.counts.crawls + Created(args, cycle, s, d), s.counts.crashes)
            && |t.libs| == Room(cycle, s, d) + Created(args, cycle, s, d)
            && (crawls != [] <==> Refreshes(cycle, s, d) || Created(args, cycle, s, d) > 0)
  {
    hide StateOk, Stocked, StageDelete, StageDocument, StageSwitch, StageRefresh, StageCreate, SoakStore.NamesBelow;
    hide DocumentComes, SwitchDue, CrawlsOk, Wanted;
    var s2 := StageDelete(cycle, StageDocument(cycle, StageSwitch(args, cycle, s), d).0, d).0;
    EarlyCounts(args, cycle, s, d);
    EarlyStagesOk(args, cycle, s, d);
    RefreshStageOk(args, cycle, s2, d);
    RefreshCounts(cycle, s2, d);
    var s3 := StageRefresh(cycle, s2, d).0;
    SoakStore.StateNamesBelow(args, s3);
    DrawnExactly(cycle, s, d);
    CreateCounts(args, cycle, s3, d, Wanted(cycle, d));
    assert s2.libs.Keys != {} <==> |s2.libs.Keys| > 0;
    assert |s2.libs| == |s2.libs.Keys| && |s.libs| == |s.libs.Keys|;
    hide Fair;
  }

  /* ---- what the rest of the turn does to them ---- */

  lemma {:induction false} ApplyKeepsCounts(s: State, crawls: seq<Crawl>)
    ensures var t := ApplyCrawls(s, crawls); t.counts == s.counts && t.libs.Keys == s.libs.Keys
  {
    hide Superseding, Landed, Last;
    if crawls != [] {
      ApplyKeepsCounts(s, crawls[..|crawls| - 1]);
      var t := ApplyCrawls(s, crawls[..|crawls| - 1]);
      var c := crawls[|crawls| - 1];
      assert c.job.lib in t.libs ==> ApplyCrawl(t, c).libs.Keys == t.libs.Keys + {c.job.lib};
    }
  }

  lemma {:induction false} CommitKeepsLibs(s: State, plan: Plan, done: map<nat, Result>, crashed: bool, n: nat)
    requires n <= |plan.ops| && CrashInCrawl(plan)
    ensures CommitOps(s, plan, done, crashed, n).libs.Keys == s.libs.Keys
  {
    hide AppendDocument;
    if n > 0 {
      CommitKeepsLibs(s, plan, done, crashed, n - 1);
    }
  }

  lemma CommittedLive(args: Args, plan: Plan, proj: State, lines: seq<Line>, crashed: bool)
    requires StateOk(args, proj) && Stocked(proj) && CrashInCrawl(plan)
    ensures var t := Committed(plan, proj, lines, crashed); t.counts == proj.counts && |t.libs| == |proj.libs|
  {
    CommitOk(args, plan, proj, lines, crashed);
    hide StateOk, Stocked, Done, Resumed, StillPending, CommitOps;
    CommitKeepsLibs(proj.(pending := StillPending(proj.pending, Resumed(lines))), plan, Done(lines), crashed, |plan.ops|);
    var t := Committed(plan, proj, lines, crashed);
    assert |t.libs| == |t.libs.Keys| && |proj.libs| == |proj.libs.Keys|;
  }

  lemma CrawlHasPages(s: State, crawls: seq<Crawl>)
    requires CrawlsOk(s, crawls) && crawls != []
    ensures crawls[|crawls| - 1].pages != []
  {
    assert Landed([]) == map[];
  }

  lemma PlannedCounts(args: Args, cycle: nat, final: bool, probe: set<LibId>, s: State, d: Draws)
    requires StateOk(args, s) && Stocked(s) && Fair(args, d) && args.pages >= 1
    ensures var (t, _, crawls) := Stages(args, cycle, final, s, d);
            var proj := Planned(args, cycle, final, probe, s, d).1;
            && proj.counts == t.counts.(crashes := t.counts.crashes + One(CrashDue(args, cycle, final, t, d, crawls)))
            && |proj.libs| == |t.libs|
  {
    hide StateOk, Stocked, Fair, Stages, CrawlsOk, ApplyCrawls, Facts, GoneFacts, Probed, CrawlOps;
    StagesOk(args, cycle, final, s, d);
    var (t, _, crawls) := Stages(args, cycle, final, s, d);
    ApplyKeepsCounts(t, crawls);
    if crawls != [] {
      CrawlHasPages(t, crawls);
    }
    var u := ApplyCrawls(t, crawls);
    assert |t.libs| == |t.libs.Keys| && |u.libs| == |u.libs.Keys|;
  }

  lemma TurnCounts(args: Args, cycle: nat, s: State, turn: Turn)
    requires StateOk(args, s) && Stocked(s) && Fair(args, turn.draws) && args.pages >= 1
    ensures var (t, _, crawls) := Stages(args, cycle, turn.final, s, turn.draws);
            var u := TakeTurn(args, cycle, s, turn);
            && u.counts == t.counts.(crashes := t.counts.crashes + One(CrashDue(args, cycle, turn.final, t, turn.draws, crawls)))
            && |u.libs| == |t.libs|
  {
    hide StateOk, Stocked, Fair, Stages, Planned, CrashDue, Committed;
    PlannedCounts(args, cycle, turn.final, turn.probe, s, turn.draws);
    PlannedOk(args, cycle, turn.final, turn.probe, s, turn.draws);
    PlanShape(args, cycle, turn.final, turn.probe, s, turn.draws);
    var (plan, proj) := Planned(args, cycle, turn.final, turn.probe, s, turn.draws);
    CommittedLive(args, plan, proj, turn.lines, turn.crashed);
  }

  /* ---- runs ---- */

  /** What has happened at least once after `n` ordinary cycles, and for how
      many libraries a run must have room for that. */
  predicate Covered(args: Args, n: nat, s: State) {
    && (n >= 1 ==> s.counts.crawls >= Min(2, args.libraries) && (s.counts.crawls >= 1 <==> args.libraries >= 1))
    && (n >= 2 ==> (s.counts.documents >= 1 <==> args.libraries >= 1) && (s.counts.refreshes >= 1 <==> args.libraries >= 1))
    && (n >= 3 ==> (s.counts.deletes >= 1 <==> args.libraries >= 2))
    && (n >= 5 ==> s.counts.switches >= 1)
  }

  /** With it, what cannot have happened and how many libraries live. */
  predicate Progress(args: Args, n: nat, s: State) {
    && Covered(args, n, s)
    && (args.libraries == 0 ==> s.counts.documents == 0 && s.counts.refreshes == 0 && s.counts.crawls == 0)
    && (args.libraries <= 1 ==> s.counts.deletes == 0)
    && (n >= 1 ==> |s.libs| >= Min(if s.counts.deletes == 0 then 2 else 1, args.libraries))
  }

  /** A crash is planned in the cycle, if it crawls. */
  predicate MayCrashIn(args: Args, cycle: nat, s: State, d: Draws) {
    args.crashes && (d.crashRoll || (4 <= cycle <= 5 && s.counts.crashes == 0))
  }

  /** One ordinary turn of a run, whatever its child does: which counters move,
      how many libraries live, and whether it crawls. */
  lemma OrdinaryTurn(args: Args, cycle: nat, s: State, turn: Turn)
    requires StateOk(args, s) && Stocked(s) && Fair(args, turn.draws) && args.pages >= 1 && !turn.final
    ensures var d := turn.draws;
            var u := TakeTurn(args, cycle, s, turn);
            && u.counts == Counts(
                 s.counts.switches + One(SwitchDue(args, cycle, s)),
                 s.counts.documents + One(DocumentComes(cycle, s, d)),
                 s.counts.deletes + One(DeleteComes(cycle, s, d)),
                 s.counts.refreshes + One(Refreshes(cycle, s, d)),
                 s.counts.crawls + Created(args, cycle, s, d),
                 s.counts.crashes + One(HasCrawl(args, cycle, s, turn) && MayCrashIn(args, cycle, s, d)))
            && |u.libs| == Room(cycle, s, d) + Created(args, cycle, s, d)
    ensures HasCrawl(args, cycle, s, turn) <==> Refreshes(cycle, s, turn.draws) || Created(args, cycle, s, turn.draws) > 0
  {
    hide StateOk, Stocked, Fair, Stages, TakeTurn, SwitchDue, DocumentComes, DeleteComes, Refreshes, Created, Room;
    StagesCounts(args, cycle, s, turn.draws);
    TurnCounts(args, cycle, s, turn);
  }

  lemma CountLive(args: Args, s: State)
    requires StateOk(args, s)
    ensures |s.libs.Keys| == |s.libs| <= args.libraries && (s.libs.Keys != {} <==> |s.libs| > 0)
  {
    hide LibsOk, DeletedOk, ReplacedOk;
    assert s.libs.Keys != {} <==> |s.libs.Keys| > 0;
  }

  lemma TurnProgresses(args: Args, n: nat, s: State, turn: Turn)
    requires StateOk(args, s) && Stocked(s) && Fair(args, turn.draws) && args.pages >= 1
    requires Progress(args, n, s) && n < STAGE_BUDGET && !turn.final && (n == 0 ==> s == NEW_STATE)
    ensures Progress(args, n + 1, TakeTurn(args, n + 1, s, turn))
  {
    hide StateOk, Stocked, Fair, TakeTurn, HasCrawl, MayCrashIn;
    CountLive(args, s);
    OrdinaryTurn(args, n + 1, s, turn);
  }

  lemma {:induction false} FirstCyclesProgress(args: Args, turns: seq<Turn>)
    requires args.pages >= 1 && AllFair(args, turns)
    requires |turns| <= STAGE_BUDGET && Ordinary(turns, |turns|)
    ensures Progress(args, |turns|, After(args, turns))
  {
    hide TakeTurn, StateOk, Stocked, AllFair, Progress;
    if turns == [] {
      NoProgress(args);
      return;
    }
    var n := |turns| - 1;
    FairInit(args, turns);
    FirstCyclesProgress(args, turns[..n]);
    AfterOk(args, turns[..n]);
    AfterOneMore(args, turns);
    TurnProgresses(args, n, After(args, turns[..n]), turns[n]);
  }

  lemma NoProgress(args: Args)
    ensures Progress(args, 0, NEW_STATE)
  {
  }

  /** What the ordinary cycles among the first five are sure to contain,
      exactly, in any run and whatever its children do: crawls in the first,
      two if there is room; a document and a refresh within two, if and only if
      there is room for a library; a delete within three, if and only if there
      is room for two; a model switch within five. */
  lemma FirstCyclesCover(args: Args, turns: seq<Turn>)
    requires args.pages >= 1 && AllFair(args, turns)
    requires |turns| <= STAGE_BUDGET && Ordinary(turns, |turns|)
    ensures Covered(args, |turns|, After(args, turns))
    ensures args.libraries <= 1 ==> After(args, turns).counts.deletes == 0
  {
    hide After;
    FirstCyclesProgress(args, turns);
  }

  lemma FairInit(args: Args, turns: seq<Turn>)
    requires AllFair(args, turns)
    ensures forall n | 0 <= n <= |turns| :: AllFair(args, turns[..n])
    ensures forall n | 0 <= n < |turns| :: Fair(args, turns[n].draws)
  {
    hide Fair;
  }

  lemma AfterOneMore(args: Args, turns: seq<Turn>)
    requires turns != []
    ensures After(args, turns) == TakeTurn(args, |turns|, After(args, turns[..|turns| - 1]), turns[|turns| - 1])
  {
  }

  /** Cycle `k` crawls, and may crash there: it drew to, or it is one of the
      two that must while no cycle has. */
  predicate CrashMay(args: Args, turns: seq<Turn>, k: nat)
    requires k < |turns|
  {
    HasCrawl(args, k + 1, After(args, turns[..k]), turns[k]) && (turns[k].draws.crashRoll || k + 1 >= 4)
  }

  /** The crash is the exception: the first five cycles plan one if and only if
      crashes are wanted at all and some cycle that crawls drew to crash, or
      is the fourth or fifth. */
  lemma {:induction false} CrashCovered(args: Args, turns: seq<Turn>)
    requires args.pages >= 1 && AllFair(args, turns) && |turns| <= STAGE_BUDGET && Ordinary(turns, |turns|)
    ensures After(args, turns).counts.crashes >= 1
            <==> args.crashes && exists k :: 0 <= k < |turns| && CrashMay(args, turns, k)
  {
    hide TakeTurn, After, StateOk, Stocked, AllFair, CrashMay, Fair;
    if turns == [] {
      NothingYet(args);
      return;
    }
    var n := |turns| - 1;
    var init, s, turn := turns[..n], After(args, turns[..n]), turns[n];
    FairInit(args, turns);
    CrashCovered(args, init);
    forall k | 0 <= k < n ensures CrashMay(args, init, k) == CrashMay(args, turns, k) {
      assert init[..k] == turns[..k];
      MayCrash(args, init, k);
      MayCrash(args, turns, k);
    }
    AfterOk(args, init);
    AfterOneMore(args, turns);
    OrdinaryTurn(args, n + 1, s, turn);
    MayCrash(args, turns, n);
    hide HasCrawl, Refreshes, Created, Room, SwitchDue, DocumentComes, DeleteComes;
  }

  lemma NothingYet(args: Args)
    ensures After(args, []) == NEW_STATE
  {
  }

  lemma MayCrash(args: Args, turns: seq<Turn>, k: nat)
    requires k < |turns|
    ensures CrashMay(args, turns, k)
            <==> HasCrawl(args, k + 1, After(args, turns[..k]), turns[k]) && (turns[k].draws.crashRoll || k + 1 >= 4)
  {
    hide After, HasCrawl;
  }

  /** No cycle drew to crash, and the fourth and fifth drew no crawl. */
  predicate Quiet(turns: seq<Turn>) {
    forall i | 0 <= i < |turns| ::
      !turns[i].draws.crashRoll && (i >= 3 ==> !turns[i].draws.refreshRoll && !turns[i].draws.createRoll)
  }

  /** So a run may be through its first five cycles without a crash although
      crashes are wanted: one whose fourth and fifth cycle draw no crawl. */
  lemma QuietRunHasNoCrash(args: Args, turns: seq<Turn>)
    requires args.pages >= 1 && AllFair(args, turns) && Quiet(turns)
    requires |turns| <= STAGE_BUDGET && Ordinary(turns, |turns|)
    ensures After(args, turns).counts.crashes == 0
  {
    hide TakeTurn, After, StateOk, Stocked, AllFair, Fair, CrashMay;
    CrashCovered(args, turns);
    FairInit(args, turns);
    forall k | 0 <= k < |turns| ensures !CrashMay(args, turns, k) {
      MayCrash(args, turns, k);
      if k >= 3 {
        FirstCyclesCover(args, turns[..k]);
        AfterOk(args, turns[..k]);
        CountLive(args, After(args, turns[..k]));
        OrdinaryTurn(args, k + 1, After(args, turns[..k]), turns[k]);
      }
    }
  }

  ghost function AnyOf<T>(s: set<T>, none: T): (t: T)
    ensures s != {} ==> t in s
  {
    if s == {} then none else var t :| t in s; t
  }

  ghost function SomeOf<T>(s: set<T>, n: nat): (part: set<T>)
    ensures part <= s && |part| == Min(n, |s|)
  {
    if n == 0 || s == {} then {} else var t :| t in s; {t} + SomeOf(s - {t}, n - 1)
  }

  ghost function QuietDraws(args: Args): Draws {
    var nowhere, crawl := LibId(0, 0), CrawlDraw(k => Keep, 0, k => false);
    Draws(false, (s: set<LibId>) => AnyOf(s, nowhere), false, (s: set<nat>) => AnyOf(s, 0),
          false, (s: set<LibId>) => AnyOf(s, nowhere), false, (s: set<LibId>) => AnyOf(s, nowhere), crawl,
          false, n => crawl, false, 0,
          (s: set<Item>) => SomeOf(s, args.questions), (s: set<Item>) => AnyOf(s, Page(nowhere, 0, 0)),
          (s: set<Absent>) => SomeOf(s, args.questions))
  }

  /** There is such a run. */
  lemma QuietRun(args: Args) returns (turns: seq<Turn>)
    requires args.pages >= 1
    ensures |turns| == STAGE_BUDGET && Ordinary(turns, STAGE_BUDGET) && AllFair(args, turns)
    ensures After(args, turns).counts.crashes == 0
  {
    hide After;
    var turn := Turn(false, {}, QuietDraws(args), [], false);
    assert Fair(args, turn.draws);
    turns := seq(STAGE_BUDGET, i => turn);
    QuietRunHasNoCrash(args, turns);
  }

  lemma {:induction false} Bound(s: set<nat>) returns (n: nat)
    ensures forall x | x in s :: x < n
  {
    if s == {} {
      return 0;
    }
    var x :| x in s;
    var rest := Bound(s - {x});
    n := if x < rest then rest else x + 1;
    forall y | y in s ensures y < n {
      assert y == x || y in s - {x};
    }
  }

  /** Runs of any length are possible: draws can be fair, and there is always an
      identity no stored document has. */
  lemma {:induction false} RunsArePossible(args: Args, n: nat) returns (steps: seq<SoakRefinement.Step>)
    ensures |steps| == n && SoakRefinement.Possible(args, steps)
  {
    hide SoakRefinement.Run, Fair, SoakStore.Fresh;
    if n == 0 {
      return [];
    }
    var before := RunsArePossible(args, n - 1);
    var store := SoakRefinement.Run(args, before).1;
    var ch := FreshChoices(store);
    QuietDrawsFair(args);
    steps := before + [SoakRefinement.Step(false, {}, QuietDraws(args), ch)];
    assert steps[..n - 1] == before;
  }

  lemma QuietDrawsFair(args: Args)
    ensures Fair(args, QuietDraws(args))
  {
  }

  lemma FreshChoices(store: SoakStore.Store) returns (ch: SoakStore.Choices)
    ensures SoakStore.Fresh(store, ch) && forall i: nat :: ch.chunks(i) > 0
  {
    var given := set id, d | id in store && d in store[id].docs :: d;
    var unused := Bound(given);
    ch := SoakStore.Choices(true, {}, i => unused, i => 0, i => 1);
    forall i: nat, id | id in store ensures ch.newDocument(i) !in store[id].docs {
      assert unused in store[id].docs ==> unused in given;
    }
  }
}
