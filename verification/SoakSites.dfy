/** What a plan's operations are: which version a document gets, how a
    refreshed site differs from the site before, and what a crawl expects of
    each page (scripts/knowledge_soak.py, `_plan_cycle` and `_crawl_spec`). */
module SoakSites {
  import opened SoakModel
  import opened SoakOracle

  /** The site a refresh finds: each page kept, changed or removed as drawn, and
      the new ones numbered on from the last, one at least when none is left. */
  ghost predicate Refreshed(lib: Library, draw: CrawlDraw, now: Library) {
    && (forall k | k in lib.site :: k in now.site <==> draw.roll(k) != Remove)
    && (forall k | k in lib.site && k in now.site :: now.site[k] == if draw.roll(k) == Change then lib.site[k] + 1 else lib.site[k])
    && (forall k | k !in lib.site :: k in now.site <==> lib.nextPage <= k < now.nextPage)
    && (forall k | k !in lib.site && k in now.site :: now.site[k] == 1)
    && now.site != map[]
    && now.nextPage - lib.nextPage == (if draw.added == 0 && forall k | k in lib.site :: draw.roll(k) == Remove then 1 else draw.added)
  }

  /** The pages are the site's in their order, at its versions. */
  ghost predicate PagesInOrder(pages: seq<PageSpec>, site: map<nat, nat>) {
    && (forall k :: k in site <==> exists i :: 0 <= i < |pages| && pages[i].no == k)
    && (forall i, j | 0 <= i < j < |pages| :: pages[i].no < pages[j].no)
    && (forall i | 0 <= i < |pages| :: pages[i].no in site && pages[i].version == site[pages[i].no])
  }

  /** Each fails that was drawn to, but the first when all were. */
  ghost predicate FailsAsDrawn(pages: seq<PageSpec>, site: map<nat, nat>, fails: nat -> bool) {
    forall i | 0 <= i < |pages| :: pages[i].fail <==> fails(pages[i].no) && !(i == 0 && AllFail(site, fails))
  }

  predicate AllFail(site: map<nat, nat>, fails: nat -> bool) {
    forall k | k in site :: fails(k)
  }

  ghost predicate PagesOfSite(pages: seq<PageSpec>, site: map<nat, nat>, fails: nat -> bool) {
    PagesInOrder(pages, site) && FailsAsDrawn(pages, site, fails)
  }

  lemma SurveyedIs(lib: Library, draw: CrawlDraw)
    requires SiteOk(lib)
    ensures Refreshed(lib, draw, Surveyed(lib, Refresh, draw))
  {
    var kept, now := RefreshedPages(lib.site, draw.roll), Surveyed(lib, Refresh, draw);
    assert kept == map[] <==> forall k | k in lib.site :: draw.roll(k) == Remove by {
      if k :| k in lib.site && draw.roll(k) != Remove {
        assert k in kept;
      }
    }
    if kept == map[] {
      assert lib.nextPage in now.site;
    } else {
      var k :| k in kept;
      assert k in now.site;
    }
  }

  lemma SpecAt(lib: Library, draw: CrawlDraw) returns (keys: seq<nat>)
    ensures |keys| == |PageSpecs(lib, draw)| && (SiteOk(lib) ==> forall k :: k in keys <==> k in lib.site)
    ensures forall i, j | 0 <= i < j < |keys| :: keys[i] < keys[j]
    ensures forall i | 0 <= i < |keys| ::
              keys[i] in lib.site && PageSpecs(lib, draw)[i] == PageSpec(keys[i], lib.site[keys[i]], PageFails(keys, draw.fails, keys[i]))
  {
    hide PageFails;
    keys := SortedKeys(lib.site.Keys, lib.nextPage);
    assert forall i | 0 <= i < |keys| :: keys[i] in keys;
  }

  lemma SpecsAre(lib: Library, draw: CrawlDraw)
    requires SiteOk(lib)
    ensures PagesOfSite(PageSpecs(lib, draw), lib.site, draw.fails)
  {
    hide PageFails, PageSpecs, SiteOk, PagesInOrder, AllFail;
    var keys := SpecAt(lib, draw);
    var pages := PageSpecs(lib, draw);
    NumbersAre(pages, keys, lib.site);
    forall i | 0 <= i < |pages| ensures pages[i].fail <==> draw.fails(pages[i].no) && !(i == 0 && AllFail(lib.site, draw.fails)) {
      SpecFails(lib.site, draw.fails, keys, i);
    }
  }

  lemma NumbersAre(pages: seq<PageSpec>, keys: seq<nat>, site: map<nat, nat>)
    requires |pages| == |keys| && (forall k :: k in keys <==> k in site) && forall i, j | 0 <= i < j < |keys| :: keys[i] < keys[j]
    requires forall i | 0 <= i < |keys| :: keys[i] in site && pages[i].no == keys[i] && pages[i].version == site[keys[i]]
    ensures PagesInOrder(pages, site)
  {
    forall k | k in site ensures exists i :: 0 <= i < |pages| && pages[i].no == k {
      var i :| 0 <= i < |keys| && keys[i] == k;
      assert pages[i].no == k;
    }
  }

  lemma SpecFails(site: map<nat, nat>, fails: nat -> bool, keys: seq<nat>, i: nat)
    requires i < |keys| && (forall k :: k in keys <==> k in site) && forall x, y | 0 <= x < y < |keys| :: keys[x] < keys[y]
    ensures PageFails(keys, fails, keys[i]) <==> fails(keys[i]) && !(i == 0 && AllFail(site, fails))
  {
    assert keys[i] == keys[0] <==> i == 0;
  }

  /** A document's next version, known by the identity it has; or a new one,
      as drawn, or when there is none. */
  predicate DocumentFits(lib: Library, d: Draws, key: nat, version: nat, known: Option<nat>) {
    && (key in lib.docs <==> d.docReuse && lib.docs != map[])
    && if key in lib.docs then version == lib.docs[key].version + 1 && known == lib.docs[key].documentId
    else key == lib.nextDoc && version == 1 && known == None
  }

  /** A crawl of a library that was there refreshes its site. */
  ghost predicate RefreshFits(s: State, cycle: nat, d: Draws, c: Crawl, proj: State) {
    && c.job == Job(c.job.lib, cycle, Refresh) && c.job.lib in s.libs && c.job.lib in proj.libs
    && Refreshed(s.libs[c.job.lib], d.refresh, proj.libs[c.job.lib])
    && PagesOfSite(c.pages, proj.libs[c.job.lib].site, d.refresh.fails)
  }

  predicate NewSite(args: Args, site: map<nat, nat>) {
    && (forall k :: k in site ==> 1 <= k <= args.pages && site[k] == 1)
    && (forall k | 1 <= k <= args.pages :: k in site)
  }

  /** Any other is the first of a new library, of pages 1 to `args.pages`. */
  ghost predicate NewAt(args: Args, s: State, cycle: nat, d: Draws, wanted: nat, c: Crawl, t: State) {
    && c.job == Job(LibId(cycle, c.job.lib.number), cycle, Site) && s.nextLib <= c.job.lib.number < t.nextLib
    && c.job.lib in t.libs && NewSite(args, t.libs[c.job.lib].site)
    && t.libs[c.job.lib].nextPage == args.pages + 1 && t.libs[c.job.lib].nextDoc == 1
    && exists w :: 0 <= w < wanted && PagesOfSite(c.pages, t.libs[c.job.lib].site, d.create(w).fails)
  }

  ghost predicate OpFits(args: Args, s: State, cycle: nat, d: Draws, op: Op, proj: State) {
    match op
    case DocumentOp(id, key, version, known) => id in s.libs && DocumentFits(s.libs[id], d, key, version, known)
    case DeleteOp(id) => id in s.libs && id !in proj.libs
    case CrawlOp(c) => RefreshFits(s, cycle, d, c, proj) || NewAt(args, s, cycle, d, Wanted(cycle, d), c, proj)
  }

  /* ---- stage by stage ---- */

  /** The libraries that were there have the sites they had. */
  ghost predicate SitesKept(s: State, t: State) {
    forall id | id in s.libs && id in t.libs :: t.libs[id].site == s.libs[id].site && t.libs[id].nextPage == s.libs[id].nextPage
  }

  /** So are the numbers their next documents get. */
  ghost predicate NumbersKept(s: State, t: State) {
    forall id | id in s.libs && id in t.libs :: t.libs[id].nextDoc == s.libs[id].nextDoc
  }

  /** A document that is new takes the next number, and only such a one. */
  ghost predicate Numbered(s: State, ops: seq<Op>, t: State) {
    forall id | id in s.libs && id in t.libs ::
      t.libs[id].nextDoc == s.libs[id].nextDoc + if NewDocument(ops, id, s.libs[id].nextDoc) then 1 else 0
  }

  predicate NewDocument(ops: seq<Op>, id: LibId, key: nat) {
    exists op :: op in ops && op.DocumentOp? && op.lib == id && op.key == key
  }

  lemma DocumentIs(args: Args, cycle: nat, s: State, d: Draws)
    requires StateOk(args, s) && Fair(args, d)
    ensures var (t, ops) := StageDocument(cycle, s, d);
            && SitesKept(s, t) && Numbered(s, ops, t) && t.libs.Keys == s.libs.Keys && t.nextLib == s.nextLib
            && forall op | op in ops :: op.DocumentOp? && op.lib in s.libs && DocumentFits(s.libs[op.lib], d, op.key, op.version, op.documentId)
  {
    hide DocumentKey, DocumentDue, StateOk;
    var id := d.docLib(s.libs.Keys);
    if DocumentDue(cycle, s, d) && id in s.libs {
      LibIsOk(args, s, id);
      KeyIs(args, s.libs[id], d);
    }
  }

  lemma LibIsOk(args: Args, s: State, id: LibId)
    requires StateOk(args, s) && id in s.libs
    ensures SiteOk(s.libs[id])
  {
    LibOk(s, id);
  }

  lemma KeyIs(args: Args, lib: Library, d: Draws)
    requires SiteOk(lib) && Fair(args, d)
    ensures DocumentKey(lib, d) in lib.docs || DocumentKey(lib, d) == lib.nextDoc
    ensures DocumentKey(lib, d) in lib.docs <==> d.docReuse && lib.docs != map[]
  {
  }

  lemma DeleteIs(cycle: nat, s: State, d: Draws)
    ensures var (t, ops) := StageDelete(cycle, s, d);
            && SitesKept(s, t) && NumbersKept(s, t) && t.libs.Keys <= s.libs.Keys && t.nextLib == s.nextLib
            && forall op | op in ops :: op.DeleteOp? && op.lib in s.libs && op.lib !in t.libs
  {
    hide GoneOf, Last;
  }

  lemma RefreshIs(args: Args, cycle: nat, s: State, d: Draws)
    requires StateOk(args, s)
    ensures var (t, crawls) := StageRefresh(cycle, s, d);
            && t.libs.Keys == s.libs.Keys && t.nextLib == s.nextLib && NumbersKept(s, t)
            && (forall c | c in crawls :: RefreshFits(s, cycle, d, c, t))
            && (forall id | id in s.libs && (forall c | c in crawls :: c.job.lib != id) :: t.libs[id] == s.libs[id])
  {
    hide Surveyed, PageSpecs, SiteOk, Refreshed, PagesOfSite;
    var id := d.refreshLib(s.libs.Keys);
    if RefreshDue(cycle, s, d) && id in s.libs {
      assert SiteOk(s.libs[id]) by { LibOk(s, id); }
      SurveyedOk(s.libs[id], Refresh, d.refresh);
      SurveyedIs(s.libs[id], d.refresh);
      SpecsAre(Surveyed(s.libs[id], Refresh, d.refresh), d.refresh);
    }
  }

  lemma NewIs(args: Args, draw: CrawlDraw)
    requires args.pages >= 1
    ensures NewSite(args, NewLibrary(args).site) && NewLibrary(args).nextPage == args.pages + 1 && NewLibrary(args).nextDoc == 1
    ensures PagesOfSite(PageSpecs(NewLibrary(args), draw), NewLibrary(args).site, draw.fails)
  {
    NewLibraryOk(args);
    SpecsAre(NewLibrary(args), draw);
    hide PageSpecs, PagesOfSite;
  }

  /** One library created more. */
  lemma CreateOneIs(args: Args, cycle: nat, s: State, d: Draws, w: nat, t: State, c: Crawl)
    requires StateOk(args, t) && args.pages >= 1 && |t.libs| < args.libraries && t.nextLib >= s.nextLib
    requires c == Crawl(Job(LibId(cycle, t.nextLib), cycle, Site), PageSpecs(NewLibrary(args), d.create(w)))
    ensures var u := CreateIn(args, cycle, t);
            && (forall id | id in t.libs :: id in u.libs && u.libs[id] == t.libs[id])
            && u.libs.Keys == t.libs.Keys + {LibId(cycle, t.nextLib)} && u.nextLib == t.nextLib + 1
            && NewAt(args, s, cycle, d, w + 1, c, u)
  {
    hide StateOk, PageSpecs, NewLibrary, NewSite, PagesOfSite;
    CreateInOk(args, cycle, t);
    NewIs(args, d.create(w));
  }

  lemma NewStays(args: Args, s: State, cycle: nat, d: Draws, wanted: nat, c: Crawl, t: State, u: State)
    requires NewAt(args, s, cycle, d, wanted, c, t) && u.nextLib >= t.nextLib && c.job.lib in u.libs && u.libs[c.job.lib] == t.libs[c.job.lib]
    ensures NewAt(args, s, cycle, d, wanted + 1, c, u)
  {
    hide NewSite, PagesOfSite;
    var w :| 0 <= w < wanted && PagesOfSite(c.pages, t.libs[c.job.lib].site, d.create(w).fails);
    assert w < wanted + 1;
  }

  lemma LibOfNew(args: Args, s: State, cycle: nat, d: Draws, wanted: nat, c: Crawl, t: State)
    requires NewAt(args, s, cycle, d, wanted, c, t)
    ensures c.job.lib in t.libs
  {
  }

  lemma {:induction false} CreateIs(args: Args, cycle: nat, s: State, d: Draws, wanted: nat, first: seq<Crawl>)
    requires StateOk(args, s) && args.pages >= 1 && CrawlsOk(s, first)
    ensures var (t, crawls) := StageCreate(args, cycle, s, d, wanted);
            && t.nextLib >= s.nextLib
            && (forall id | id in s.libs :: id in t.libs && t.libs[id] == s.libs[id])
            && (forall id | id in t.libs && id !in s.libs :: id.number >= s.nextLib)
            && (forall c | c in crawls :: NewAt(args, s, cycle, d, wanted, c, t))
  {
    hide StateOk, CrawlsOk, PageSpecs, NewLibrary, CreateIn, NewAt, StageCreate;
    CreateUnfolds(args, cycle, s, d, wanted);
    if wanted > 0 {
      CreateIs(args, cycle, s, d, wanted - 1, first);
      CreateOk(args, cycle, s, d, wanted - 1, first);
      var (t, crawls) := StageCreate(args, cycle, s, d, wanted - 1);
      var (u, all) := StageCreate(args, cycle, s, d, wanted);
      if |t.libs| < args.libraries {
        CreateOneIs(args, cycle, s, d, wanted - 1, t, all[|crawls|]);
      }
      forall c | c in crawls ensures NewAt(args, s, cycle, d, wanted, c, u) {
        LibOfNew(args, s, cycle, d, wanted - 1, c, t);
        NewStays(args, s, cycle, d, wanted - 1, c, t, u);
      }
    }
  }

  lemma CreateUnfolds(args: Args, cycle: nat, s: State, d: Draws, wanted: nat)
    ensures wanted == 0 ==> StageCreate(args, cycle, s, d, 0) == (s, [])
    ensures wanted > 0 ==>
              var (t, crawls) := StageCreate(args, cycle, s, d, wanted - 1);
              var c := Crawl(Job(LibId(cycle, t.nextLib), cycle, Site), PageSpecs(NewLibrary(args), d.create(wanted - 1)));
              StageCreate(args, cycle, s, d, wanted)
              == if |t.libs| >= args.libraries then (t, crawls) else (CreateIn(args, cycle, t), crawls + [c])
  {
    hide CreateIn, PageSpecs, NewLibrary;
  }

  /* ---- the whole plan ---- */

  lemma {:induction false} CrawlsKeepSites(s: State, crawls: seq<Crawl>)
    ensures var t := ApplyCrawls(s, crawls); t.libs.Keys == s.libs.Keys && SitesKept(s, t) && NumbersKept(s, t) && t.nextLib == s.nextLib
  {
    hide Landed, Superseding, Last;
    if crawls != [] {
      CrawlsKeepSites(s, crawls[..|crawls| - 1]);
    }
  }

  lemma RefreshMoves(s: State, s': State, cycle: nat, d: Draws, c: Crawl, t: State, t': State)
    requires RefreshFits(s', cycle, d, c, t) && SitesKept(s, s') && s'.libs.Keys <= s.libs.Keys
    requires SitesKept(t, t') && c.job.lib in t'.libs
    ensures RefreshFits(s, cycle, d, c, t')
  {
    hide PagesOfSite;
  }

  lemma NewMoves(args: Args, s: State, s': State, cycle: nat, d: Draws, wanted: nat, c: Crawl, t: State, t': State)
    requires NewAt(args, s', cycle, d, wanted, c, t) && s.nextLib == s'.nextLib
    requires SitesKept(t, t') && NumbersKept(t, t') && c.job.lib in t'.libs && t'.nextLib == t.nextLib
    ensures NewAt(args, s, cycle, d, wanted, c, t')
  {
    hide PagesOfSite, NewSite;
  }

  /** Every operation of a plan fits what was there: documents their versions,
      a crawl the site it is to find, a delete a library that goes. */
  lemma OpsFit(args: Args, cycle: nat, final: bool, probe: set<LibId>, s: State, d: Draws)
    requires StateOk(args, s) && Stocked(s) && Fair(args, d) && args.pages >= 1
    ensures var (plan, proj) := Planned(args, cycle, final, probe, s, d);
            forall op | op in plan.ops :: OpFits(args, s, cycle, d, op, proj)
  {
    hide StateOk, Stocked, Fair, Facts, GoneFacts, Probed, CrashDue, ApplyCrawls, OpFits, Stages;
    var (t, ops, crawls) := Stages(args, cycle, final, s, d);
    CrawlsKeepSites(t, crawls);
    var u := ApplyCrawls(t, crawls);
    var (plan, proj) := Planned(args, cycle, final, probe, s, d);
    forall op | op in plan.ops ensures OpFits(args, s, cycle, d, op, proj) {
      if !final {
        StageOpsFit(args, cycle, s, d, u, op);
        CountsNoMatter(args, s, cycle, d, op, u, proj);
      } else {
        NoStages(args, cycle, s, d);
      }
    }
  }

  lemma NoStages(args: Args, cycle: nat, s: State, d: Draws)
    ensures Stages(args, cycle, true, s, d) == (s, [], [])
  {
  }

  lemma CountsNoMatter(args: Args, s: State, cycle: nat, d: Draws, op: Op, u: State, proj: State)
    requires OpFits(args, s, cycle, d, op, u) && proj.libs == u.libs && proj.nextLib == u.nextLib
    ensures OpFits(args, s, cycle, d, op, proj)
  {
    hide Refreshed, PagesOfSite, NewSite;
  }

  lemma StageOpsFit(args: Args, cycle: nat, s: State, d: Draws, u: State, op: Op)
    requires StateOk(args, s) && Stocked(s) && Fair(args, d) && args.pages >= 1
    requires var (t, ops, crawls) := Stages(args, cycle, false, s, d);
             u.libs.Keys == t.libs.Keys && SitesKept(t, u) && NumbersKept(t, u) && u.nextLib == t.nextLib && op in ops + CrawlOps(crawls)
    ensures OpFits(args, s, cycle, d, op, u)
  {
    hide StateOk, Stocked, Fair, StageDocument, StageDelete, StageRefresh, StageCreate, CrawlsOk, Refreshed, PagesOfSite, NewSite, DocumentFits;
    var s0 := StageSwitch(args, cycle, s);
    var (s1, docs) := StageDocument(cycle, s0, d);
    var (s2, deletes) := StageDelete(cycle, s1, d);
    var (s3, refreshes) := StageRefresh(cycle, s2, d);
    var (s4, sites) := StageCreate(args, cycle, s3, d, Wanted(cycle, d));
    SwitchOk(args, cycle, s);
    DocumentIs(args, cycle, s0, d);
    DeleteIs(cycle, s1, d);
    EarlyStagesOk(args, cycle, s, d);
    RefreshIs(args, cycle, s2, d);
    RefreshStageOk(args, cycle, s2, d);
    CreateIs(args, cycle, s3, d, Wanted(cycle, d), refreshes);
    if op in deletes {
      NumberBelow(args, s, op.lib);
    } else if op !in docs {
      var c := op.crawl;
      assert c in refreshes || c in sites;
      if c in refreshes {
        RefreshMoves(s, s2, cycle, d, c, s3, u);
      } else {
        NewMoves(args, s, s3, cycle, d, Wanted(cycle, d), c, s4, u);
      }
    }
  }

  lemma NumberBelow(args: Args, s: State, id: LibId)
    requires StateOk(args, s) && id in s.libs
    ensures id.number < s.nextLib
  {
  }

  lemma StagesNumbered(args: Args, cycle: nat, s: State, d: Draws)
    requires StateOk(args, s) && Stocked(s) && Fair(args, d) && args.pages >= 1
    ensures var (t, ops, crawls) := Stages(args, cycle, false, s, d); Numbered(s, ops, t)
  {
    hide StateOk, Stocked, Fair, StageDocument, StageDelete, StageRefresh, StageCreate, CrawlsOk, RefreshFits, NewAt, DocumentFits;
    var s0 := StageSwitch(args, cycle, s);
    var (s1, docs) := StageDocument(cycle, s0, d);
    var (s2, deletes) := StageDelete(cycle, s1, d);
    var (s3, refreshes) := StageRefresh(cycle, s2, d);
    SwitchOk(args, cycle, s);
    DocumentIs(args, cycle, s0, d);
    DeleteIs(cycle, s1, d);
    EarlyStagesOk(args, cycle, s, d);
    RefreshIs(args, cycle, s2, d);
    RefreshStageOk(args, cycle, s2, d);
    CreateIs(args, cycle, s3, d, Wanted(cycle, d), refreshes);
    forall id | id in s.libs && id in StageCreate(args, cycle, s3, d, Wanted(cycle, d)).0.libs ensures id in s2.libs {
      NumberBelow(args, s, id);
    }
    forall id, key ensures NewDocument(docs + deletes, id, key) <==> NewDocument(docs, id, key) {
      if op :| op in docs && op.DocumentOp? && op.lib == id && op.key == key {
        assert op in docs + deletes;
      }
    }
  }

  /** In each library that stays, the next document's number moves on exactly
      when the plan publishes a new document there. */
  lemma NextDocument(args: Args, cycle: nat, final: bool, probe: set<LibId>, s: State, d: Draws)
    requires StateOk(args, s) && Stocked(s) && Fair(args, d) && args.pages >= 1
    ensures var (plan, proj) := Planned(args, cycle, final, probe, s, d); Numbered(s, plan.ops, proj)
  {
    hide StateOk, Stocked, Fair, Facts, GoneFacts, Probed, CrashDue, ApplyCrawls, Stages;
    var (t, ops, crawls) := Stages(args, cycle, final, s, d);
    CrawlsKeepSites(t, crawls);
    if final {
      NoStages(args, cycle, s, d);
    } else {
      StagesNumbered(args, cycle, s, d);
    }
    NumberedThrough(s, ops, t, crawls, ApplyCrawls(t, crawls));
  }

  lemma NumberedThrough(s: State, ops: seq<Op>, t: State, crawls: seq<Crawl>, u: State)
    requires Numbered(s, ops, t) || (s == t && ops == [])
    requires NumbersKept(t, u) && t.libs.Keys == u.libs.Keys
    ensures Numbered(s, ops + CrawlOps(crawls), u)
  {
    forall id, key ensures NewDocument(ops + CrawlOps(crawls), id, key) <==> NewDocument(ops, id, key) {
      if op :| op in ops && op.DocumentOp? && op.lib == id && op.key == key {
        assert op in ops + CrawlOps(crawls);
      }
    }
  }
}
