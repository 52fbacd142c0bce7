/** The parent's planning state as the program keeps it: a record whose
    dictionaries and lists are changed in place (scripts/knowledge_soak.py).
    Each method is proved to do what SoakModel and SoakCommit say. */
module SoakPlanner {
  import opened SoakModel
  import opened SoakCommit
  import SoakOracle

  /** `sorted(site, key=int)`: the pages of a site are below its next number. */
  method SortKeys(s: set<nat>, bound: nat) returns (keys: seq<nat>)
    ensures keys == SortedKeys(s, bound)
  {
    keys := [];
    for k := 0 to bound
      invariant keys == SortedKeys(s, k)
    {
      if k in s {
        keys := keys + [k];
      }
    }
  }

  /** Which pages fail: those drawn to, save the first if all were. */
  method DrawFails(keys: seq<nat>, draw: CrawlDraw) returns (fails: set<nat>)
    requires forall i, j :: 0 <= i < j < |keys| ==> keys[i] != keys[j]
    ensures forall i | 0 <= i < |keys| :: keys[i] in fails <==> PageFails(keys, draw.fails, keys[i])
  {
    fails := {};
    for i := 0 to |keys|
      invariant forall k | k in fails :: k in keys[..i] && draw.fails(k)
      invariant forall j | 0 <= j < i :: draw.fails(keys[j]) ==> keys[j] in fails
    {
      if draw.fails(keys[i]) {
        fails := fails + {keys[i]};
      }
    }
    if keys != [] && forall k | k in keys :: k in fails {
      fails := fails - {keys[0]};
    }
  }

  /** The pages of a crawl, each at the site's version. */
  method DrawPages(lib: Library, draw: CrawlDraw) returns (pages: seq<PageSpec>)
    ensures pages == PageSpecs(lib, draw)
  {
    var keys := SortKeys(lib.site.Keys, lib.nextPage);
    var fails := DrawFails(keys, draw);
    hide PageFails;
    pages := [];
    for i := 0 to |keys|
      invariant |pages| == i
      invariant forall j | 0 <= j < i :: pages[j] == PageSpecs(lib, draw)[j]
    {
      assert keys[i] in keys;
      pages := pages + [PageSpec(keys[i], lib.site[keys[i]], keys[i] in fails)];
    }
  }

  /** The old pages of a refreshed site: some gone, some changed. */
  method ChangeSite(lib: Library, draw: CrawlDraw) returns (site: map<nat, nat>)
    ensures site == RefreshedPages(lib.site, draw.roll)
  {
    site := lib.site;
    var todo := lib.site.Keys;
    while todo != {}
      invariant todo <= lib.site.Keys && todo <= site.Keys
      invariant forall k | k in site :: k in lib.site
      invariant forall k | k in todo :: site[k] == lib.site[k]
      invariant forall k | k in lib.site && k !in todo ::
                  if draw.roll(k) == Remove then k !in site
                  else k in site && site[k] == if draw.roll(k) == Change then lib.site[k] + 1 else lib.site[k]
      decreases todo
    {
      var key :| key in todo;
      todo := todo - {key};
      match draw.roll(key)
      case Remove => site := site - {key};
      case Change => site := site[key := site[key] + 1];
      case Keep =>
    }
  }

  /** The site as a refresh finds it: the old pages, then new ones numbered on
      from the last, one at least when no page is left. */
  method SurveySite(lib: Library, draw: CrawlDraw) returns (surveyed: Library)
    ensures surveyed == Surveyed(lib, Refresh, draw)
  {
    var site := ChangeSite(lib, draw);
    hide RefreshedPages;
    ghost var kept := site;
    var nextPage := lib.nextPage;
    for n := 0 to draw.added
      invariant nextPage == lib.nextPage + n && site == kept + NewPages(lib.nextPage, n)
    {
      site := site[nextPage := 1];
      nextPage := nextPage + 1;
    }
    assert draw.added > 0 ==> lib.nextPage in site;
    if site == map[] {
      site := site[nextPage := 1];
      nextPage := nextPage + 1;
      assert NewPages(lib.nextPage, 1) == map[lib.nextPage := 1];
    } else if draw.added == 0 {
      assert kept == site;
    }
    surveyed := lib.(site := site, nextPage := nextPage);
  }

  lemma NoPages(id: LibId, stored: map<nat, nat>, pages: seq<PageSpec>)
    ensures stored + Landed(pages[..0]) == stored && Superseding(id, stored, pages[..0]) == []
  {
  }

  /** What one more page adds to a crawl applied so far. */
  lemma OnePage(id: LibId, stored: map<nat, nat>, pages: seq<PageSpec>, i: nat)
    requires i < |pages|
    ensures var now := stored + Landed(pages[..i]);
            var p := pages[i];
            && stored + Landed(pages[..i + 1]) == (if p.fail then now else now[p.no := p.version])
            && Superseding(id, stored, pages[..i + 1])
               == Superseding(id, stored, pages[..i])
                  + (if !p.fail && p.no in now && now[p.no] != p.version then [Page(id, p.no, now[p.no])] else [])
  {
    assert pages[..i + 1][..i] == pages[..i];
  }

  method CheckResumes(resume: seq<Crawl>, resumed: map<Job, Result>) returns (problems: seq<Problem>)
    ensures problems == ResumeProblems(resume, resumed)
  {
    hide CrawlOutcome;
    problems := [];
    for i := 0 to |resume|
      invariant problems == ResumeProblems(resume[..i], resumed)
    {
      var c := resume[i];
      assert resume[..i + 1][..i] == resume[..i];
      if c.job in resumed {
        problems := problems + CrawlOutcome(c, resumed[c.job]);
      } else {
        problems := problems + [NotResumed(c.job)];
      }
    }
    assert resume[..|resume|] == resume;
  }

  class SoakState {
    var libs: map<LibId, Library>
    var deleted: seq<Gone>
    var replaced: seq<Item>
    var pending: seq<Crawl>
    var counts: Counts
    var nextLib: nat

    function Value(): State
      reads this
    {
      State(libs, deleted, replaced, pending, counts, nextLib)
    }

    constructor ()
      ensures Value() == NEW_STATE
    {
      libs, deleted, replaced, pending, counts, nextLib := map[], [], [], [], NO_COUNTS, 0;
    }

    /** A deep copy: planning leaves the state it plans from as it was. */
    constructor Copy(s: SoakState)
      ensures Value() == s.Value()
    {
      libs, deleted, replaced, pending, counts, nextLib := s.libs, s.deleted, s.replaced, s.pending, s.counts, s.nextLib;
    }

    /** One page as the crawl will have stored it. */
    method StorePage(id: LibId, page: PageSpec)
      requires id in libs
      modifies this`libs, this`replaced
      ensures var now := old(libs)[id].stored;
              && libs == (if page.fail then old(libs)
                          else old(libs)[id := old(libs)[id].(stored := now[page.no := page.version])])
              && replaced == old(replaced)
                   + (if !page.fail && page.no in now && now[page.no] != page.version then [Page(id, page.no, now[page.no])] else [])
    {
      if !page.fail {
        var stored := libs[id].stored;
        if page.no in stored && stored[page.no] != page.version {
          replaced := replaced + [Page(id, page.no, stored[page.no])];
        }
        libs := libs[id := libs[id].(stored := stored[page.no := page.version])];
      }
    }

    /** The crawl's pages, one after the other. */
    method StorePages(id: LibId, pages: seq<PageSpec>)
      requires id in libs
      modifies this`libs, this`replaced
      ensures libs == old(libs)[id := old(libs)[id].(stored := old(libs)[id].stored + Landed(pages))]
      ensures replaced == old(replaced) + Superseding(id, old(libs)[id].stored, pages)
    {
      hide Landed, Superseding;
      ghost var lib := libs[id];
      NoPages(id, lib.stored, pages);
      assert libs[id := lib] == libs;
      for i := 0 to |pages|
        invariant id in libs
        invariant libs == old(libs)[id := lib.(stored := lib.stored + Landed(pages[..i]))]
        invariant replaced == old(replaced) + Superseding(id, lib.stored, pages[..i])
      {
        OnePage(id, lib.stored, pages, i);
        StorePage(id, pages[i]);
      }
      assert pages[..|pages|] == pages;
    }

    method ApplyCrawl(c: Crawl)
      modifies this
      ensures Value() == SoakModel.ApplyCrawl(old(Value()), c)
    {
      hide Landed, Superseding;
      var id := c.job.lib;
      if id !in libs {
        return;
      }
      StorePages(id, c.pages);
      if |replaced| > KEEP_REPLACED {
        replaced := replaced[|replaced| - KEEP_REPLACED..];
      }
    }

    method SwitchModel(args: Args, cycle: nat)
      modifies this
      ensures Value() == StageSwitch(args, cycle, old(Value()))
    {
      if (args.switchEvery != 0 && cycle % args.switchEvery == 0) || (cycle == STAGE_BUDGET && counts.switches == 0) {
        counts := counts.(switches := counts.switches + 1);
      }
    }

    method PlanDocument(cycle: nat, d: Draws) returns (ops: seq<Op>)
      modifies this
      ensures (Value(), ops) == StageDocument(cycle, old(Value()), d)
    {
      ops := [];
      if libs.Keys != {} && (d.docRoll || (cycle <= STAGE_BUDGET && cycle >= 2 && counts.documents == 0)) {
        var id := d.docLib(libs.Keys);
        if id in libs {
          var lib := libs[id];
          var key := lib.nextDoc;
          if lib.docs.Keys != {} && d.docReuse {
            key := d.docKey(lib.docs.Keys);
          }
          if key == lib.nextDoc {
            lib := lib.(nextDoc := lib.nextDoc + 1);
          }
          var version, known := 1, None;
          if key in lib.docs {
            version, known := lib.docs[key].version + 1, lib.docs[key].documentId;
            replaced := replaced + [Document(id, key, lib.docs[key].version)];
          }
          assert key !in lib.docs ==> replaced + [] == replaced;
          ops := [DocumentOp(id, key, version, known)];
          libs := libs[id := lib.(docs := lib.docs[key := Doc(version, known, None, None)])];
          counts := counts.(documents := counts.documents + 1);
        }
      }
    }

    method PlanDelete(cycle: nat, d: Draws) returns (ops: seq<Op>)
      requires |deleted| <= KEEP_DELETED
      modifies this
      ensures (Value(), ops) == StageDelete(cycle, old(Value()), d)
    {
      ops := [];
      if |libs.Keys| >= 2 && (d.deleteRoll || (cycle <= STAGE_BUDGET && cycle >= 3 && counts.deletes == 0)) {
        var id := d.deleteLib(libs.Keys);
        if id in libs {
          ops := [DeleteOp(id)];
          deleted := deleted + [GoneOf(id, libs[id])];
          libs := libs - {id};
          while |deleted| > KEEP_DELETED
            invariant |deleted| <= KEEP_DELETED + 1
            invariant Last(deleted, KEEP_DELETED) == Last(old(deleted) + [GoneOf(id, old(libs)[id])], KEEP_DELETED)
            invariant Value() == old(Value()).(libs := old(libs) - {id}, deleted := deleted)
          {
            deleted := deleted[1..];
          }
          counts := counts.(deletes := counts.deletes + 1);
        }
      }
    }

    method PlanRefresh(cycle: nat, d: Draws) returns (crawls: seq<Crawl>)
      modifies this
      ensures (Value(), crawls) == StageRefresh(cycle, old(Value()), d)
    {
      hide PageSpecs, Surveyed;
      crawls := [];
      if libs.Keys != {} && (d.refreshRoll || (cycle <= STAGE_BUDGET && cycle >= 2 && counts.refreshes == 0)) {
        var id := d.refreshLib(libs.Keys);
        if id in libs {
          var lib := SurveySite(libs[id], d.refresh);
          var pages := DrawPages(lib, d.refresh);
          libs := libs[id := lib];
          crawls := [Crawl(Job(id, cycle, Refresh), pages)];
          counts := counts.(refreshes := counts.refreshes + 1);
        }
      }
    }

    /** One new library, if there is room. */
    method CreateLibrary(args: Args, cycle: nat, draw: CrawlDraw) returns (crawls: seq<Crawl>)
      modifies this
      ensures Value() == if |old(libs)| < args.libraries then CreateIn(args, cycle, old(Value())) else old(Value())
      ensures crawls == if |old(libs)| < args.libraries
                        then [Crawl(Job(LibId(cycle, old(nextLib)), cycle, Site), PageSpecs(NewLibrary(args), draw))] else []
    {
      hide PageSpecs, NewLibrary;
      crawls := [];
      if |libs| < args.libraries {
        var id := LibId(cycle, nextLib);
        nextLib := nextLib + 1;
        var lib := NewLibrary(args);
        var pages := DrawPages(lib, draw);
        libs := libs[id := lib];
        crawls := [Crawl(Job(id, cycle, Site), pages)];
        counts := counts.(crawls := counts.crawls + 1);
      }
    }

    method PlanCreate(args: Args, cycle: nat, d: Draws) returns (crawls: seq<Crawl>)
      modifies this
      ensures (Value(), crawls) == StageCreate(args, cycle, old(Value()), d, Wanted(cycle, d))
    {
      hide CreateIn, PageSpecs, NewLibrary;
      crawls := [];
      for i := 0 to Wanted(cycle, d)
        invariant (Value(), crawls) == StageCreate(args, cycle, old(Value()), d, i)
      {
        var more := CreateLibrary(args, cycle, d.create(i));
        assert crawls + [] == crawls;
        crawls := crawls + more;
      }
    }

    /** Everything the cycle decides, before the crawls are applied. */
    method PlanStages(args: Args, cycle: nat, final: bool, d: Draws) returns (ops: seq<Op>, crawls: seq<Crawl>)
      requires |deleted| <= KEEP_DELETED
      modifies this
      ensures (Value(), ops, crawls) == Stages(args, cycle, final, old(Value()), d)
    {
      hide StageSwitch, StageDocument, StageDelete, StageRefresh, StageCreate;
      ops, crawls := [], [];
      if !final {
        SwitchKeepsDeleted(args, cycle, Value(), d);
        SwitchModel(args, cycle);
        ops := PlanDocument(cycle, d);
        var deletes := PlanDelete(cycle, d);
        ops := ops + deletes;
        crawls := PlanRefresh(cycle, d);
        var sites := PlanCreate(args, cycle, d);
        crawls := crawls + sites;
      }
    }

    method ApplyAll(crawls: seq<Crawl>)
      modifies this
      ensures Value() == ApplyCrawls(old(Value()), crawls)
    {
      hide SoakModel.ApplyCrawl;
      for i := 0 to |crawls|
        invariant Value() == ApplyCrawls(old(Value()), crawls[..i])
      {
        assert crawls[..i + 1][..i] == crawls[..i];
        ApplyCrawl(crawls[i]);
      }
      assert crawls[..|crawls|] == crawls;
    }

    /** The answers asked for: the sample, and one of each probed library the
        sample passed over. */
    method AskAbout(d: Draws, probe: set<LibId>) returns (ask: set<Item>)
      requires Chooses(d.probe)
      ensures ask == d.ask(Facts(Value())) + Probed(Value(), d.ask(Facts(Value())), probe, d.probe)
    {
      hide Facts;
      var sample := d.ask(Facts(Value()));
      ask := sample;
      var todo := probe;
      while todo != {}
        invariant todo <= probe
        invariant ask == sample + Probed(Value(), sample, probe - todo, d.probe)
        decreases todo
      {
        var id :| id in todo;
        assert forall f | f in Probed(Value(), sample, probe - todo, d.probe) :: f.lib in probe - todo;
        todo := todo - {id};
        if id in libs && FactsOf(Value(), id) != {} && forall f | f in ask :: f.lib != id {
          ask := ask + {d.probe(FactsOf(Value(), id))};
        }
      }
      assert probe - todo == probe;
    }

    /** `_commit`: the child's report taken into the projected state. */
    method Commit(plan: Plan, lines: seq<Line>, crashed: bool) returns (problems: seq<Problem>)
      requires CrashInCrawl(plan)
      modifies this
      ensures Value() == Committed(plan, old(Value()), lines, crashed)
      ensures problems == Problems(plan, lines, crashed)
    {
      hide CommitOps, OpProblems, ResumeProblems, Done, Resumed, StillPending;
      var done, resumed := Done(lines), Resumed(lines);
      pending := StillPending(pending, resumed);
      problems := CheckResumes(plan.resume, resumed);
      var more := CommitOperations(plan, done, crashed);
      problems := problems + more;
    }

    method CommitOperations(plan: Plan, done: map<nat, Result>, crashed: bool) returns (problems: seq<Problem>)
      requires CrashInCrawl(plan)
      modifies this
      ensures Value() == CommitOps(old(Value()), plan, done, crashed, |plan.ops|)
      ensures problems == OpProblems(plan, done, crashed, |plan.ops|)
    {
      hide FillDocument, CrawlOutcome;
      problems := [];
      for i := 0 to |plan.ops|
        invariant problems == OpProblems(plan, done, crashed, i)
        invariant Value() == CommitOps(old(Value()), plan, done, crashed, i)
      {
        if i !in done && crashed && plan.crash.Some? && plan.crash.value.opIndex == i {
          pending := pending + [plan.ops[i].crawl];
        } else if i !in done {
          problems := problems + [NotRun(i)];
        } else {
          var result := done[i];
          match plan.ops[i]
          case DocumentOp(id, key, _, _) =>
            if !result.ok {
              problems := problems + [DocumentRefused(i)];
            }
            Fill(id, key, result);
          case DeleteOp(_) =>
            if !result.deleted || !result.provenanceRemoved {
              problems := problems + [DeleteIncomplete(i)];
            }
          case CrawlOp(c) =>
            problems := problems + CrawlOutcome(c, result);
        }
      }
    }

    method Fill(id: LibId, key: nat, result: Result)
      modifies this
      ensures Value() == FillDocument(old(Value()), id, key, result)
    {
      if id in libs && key in libs[id].docs {
        var doc := libs[id].docs[key];
        doc := doc.(documentId := result.documentId, versionId := result.versionId, chunks := result.chunks);
        libs := libs[id := libs[id].(docs := libs[id].docs[key := doc])];
      } else {
        deleted := AppendDocument(deleted, id, result.documentId);
      }
    }
  }

  lemma SwitchKeepsDeleted(args: Args, cycle: nat, s: State, d: Draws)
    ensures var s0 := StageSwitch(args, cycle, s);
            s0.deleted == s.deleted && StageDocument(cycle, s0, d).0.deleted == s.deleted
  {
  }

  lemma FairProbe(args: Args, d: Draws)
    requires Fair(args, d)
    ensures Chooses(d.probe)
  {
  }

  lemma DeletedBound(args: Args, s: State)
    requires SoakOracle.StateOk(args, s)
    ensures |s.deleted| <= KEEP_DELETED
  {
  }

  /** `_plan_cycle`: the plan, and the state it projects, from a copy. */
  method PlanCycle(args: Args, cycle: nat, final: bool, probe: set<LibId>, s: SoakState, d: Draws)
    returns (plan: Plan, proj: SoakState)
    requires SoakOracle.StateOk(args, s.Value()) && Fair(args, d)
    ensures fresh(proj) && (plan, proj.Value()) == Planned(args, cycle, final, probe, s.Value(), d)
  {
    hide Stages, ApplyCrawls, Facts, GoneFacts, Probed, CrawlOps, Fair, SoakOracle.StateOk;
    FairProbe(args, d);
    DeletedBound(args, s.Value());
    proj := new SoakState.Copy(s);
    var resume := proj.pending;
    var ops, crawls := proj.PlanStages(args, cycle, final, d);
    ops := ops + CrawlOps(crawls);
    proj.ApplyAll(crawls);
    var crash := None;
    if CrashDue(args, cycle, final, proj.Value(), d, crawls) && crawls[|crawls| - 1].pages != [] {
      var last := crawls[|crawls| - 1];
      crash := Some(Crash(|ops| - 1, d.crashPage % |last.pages|));
      proj.counts := proj.counts.(crashes := proj.counts.crashes + 1);
    }
    var ask := proj.AskAbout(d, probe);
    plan := Plan(cycle, resume, ops, crash, proj.libs.Keys, ask, d.absent(GoneFacts(proj.Value())));
  }
}
