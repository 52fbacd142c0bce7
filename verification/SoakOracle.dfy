/** What every planned cycle keeps, whatever is drawn and whatever the child
    reports, and why the oracle cannot contradict itself: a version that was
    replaced is older than the stored one, and neither page numbers nor
    library names come back. */
module SoakOracle {
  import opened SoakModel
  import opened SoakCommit

  ghost predicate SiteOk(lib: Library) {
    && lib.site != map[]
    && (forall k | k in lib.site :: k < lib.nextPage && lib.site[k] >= 1)
    && (forall k | k in lib.stored :: k < lib.nextPage)
    && (forall k | k in lib.site && k in lib.stored :: lib.stored[k] <= lib.site[k])
    && (forall k | k in lib.docs :: k < lib.nextDoc)
  }

  /** The item is an older version of something the library holds. */
  predicate Older(lib: Library, r: Item) {
    match r
    case Page(_, k, v) => k in lib.stored && v < lib.stored[k]
    case Document(_, k, v) => k in lib.docs && v < lib.docs[k].version
  }

  ghost predicate LibsOk(s: State) {
    forall id | id in s.libs :: id.number < s.nextLib && SiteOk(s.libs[id])
  }

  ghost predicate DeletedOk(s: State) {
    && |s.deleted| <= KEEP_DELETED
    && (forall i | 0 <= i < |s.deleted| :: s.deleted[i].id.number < s.nextLib && s.deleted[i].id !in s.libs)
    && (forall i, j | 0 <= i < j < |s.deleted| :: s.deleted[i].id != s.deleted[j].id)
  }

  predicate ItemOk(s: State, r: Item) {
    r.lib.number < s.nextLib && (r.lib in s.libs ==> Older(s.libs[r.lib], r))
  }

  ghost predicate ReplacedOk(s: State) {
    forall i | 0 <= i < |s.replaced| :: ItemOk(s, s.replaced[i])
  }

  ghost predicate StateOk(args: Args, s: State) {
    LibsOk(s) && DeletedOk(s) && ReplacedOk(s) && |s.libs| <= args.libraries
  }

  /** No crawl has stored a page of the library yet. */
  predicate Bare(lib: Library) {
    |lib.stored| == 0
  }

  /** Every library's site was crawled: it holds a page. */
  ghost predicate Stocked(s: State) {
    forall id | id in s.libs :: !Bare(s.libs[id])
  }

  /* ---- one crawl ---- */

  lemma SurveyedOk(lib: Library, kind: Kind, draw: CrawlDraw)
    requires SiteOk(lib)
    ensures SiteOk(Surveyed(lib, kind, draw))
    ensures var l := Surveyed(lib, kind, draw);
            l.stored == lib.stored && l.docs == lib.docs && l.nextDoc == lib.nextDoc && l.nextPage >= lib.nextPage
  {
    if kind == Refresh {
      var kept := RefreshedPages(lib.site, draw.roll);
      var added := if kept == map[] && draw.added == 0 then 1 else draw.added;
      var l := Surveyed(lib, kind, draw);
      if kept == map[] {
        assert lib.nextPage in l.site;
      } else {
        var k :| k in kept;
        assert k in l.site;
      }
    }
  }

  predicate PageOf(lib: Library, p: PageSpec) {
    p.no in lib.site && p.version == lib.site[p.no]
  }

  /** A crawl of a library's surveyed site: its pages are the site's, each at
      the site's version, and one of them does not fail. */
  ghost predicate CrawlOf(lib: Library, c: Crawl) {
    (forall i | 0 <= i < |c.pages| :: PageOf(lib, c.pages[i])) && Landed(c.pages) != map[]
  }

  lemma {:induction false} LandsNotFailing(pages: seq<PageSpec>, i: nat)
    requires i < |pages| && !pages[i].fail
    ensures pages[i].no in Landed(pages)
  {
    if i < |pages| - 1 {
      LandsNotFailing(pages[..|pages| - 1], i);
    }
  }

  lemma SpecsCover(lib: Library, draw: CrawlDraw, job: Job)
    requires SiteOk(lib)
    ensures CrawlOf(lib, Crawl(job, PageSpecs(lib, draw)))
  {
    var keys := SortedKeys(lib.site.Keys, lib.nextPage);
    var pages := PageSpecs(lib, draw);
    assert forall i | 0 <= i < |keys| :: keys[i] in keys;
    var i := SparedPage(lib, draw);
    LandsNotFailing(pages, i);
  }

  /** One page of a crawl does not fail: the first one is spared when every
      page was drawn to. */
  lemma SparedPage(lib: Library, draw: CrawlDraw) returns (i: nat)
    requires SiteOk(lib)
    ensures i < |PageSpecs(lib, draw)| && !PageSpecs(lib, draw)[i].fail
  {
    var keys := SortedKeys(lib.site.Keys, lib.nextPage);
    var k :| k in lib.site;
    assert k in keys;
    if forall x | x in keys :: draw.fails(x) {
      i := 0;
    } else {
      var x :| x in keys && !draw.fails(x);
      i :| 0 <= i < |keys| && keys[i] == x;
    }
  }

  predicate SupersededIn(id: LibId, r: Item, landed: map<nat, nat>) {
    r.Page? && r.lib == id && r.key in landed && r.version < landed[r.key]
  }

  predicate AllSuperseded(id: LibId, rs: seq<Item>, landed: map<nat, nat>) {
    forall i | 0 <= i < |rs| :: SupersededIn(id, rs[i], landed)
  }

  lemma {:induction false} SupersededAreOlder(id: LibId, lib: Library, pages: seq<PageSpec>)
    requires SiteOk(lib)
    requires forall i | 0 <= i < |pages| :: PageOf(lib, pages[i])
    ensures forall k | k in Landed(pages) :: k in lib.site && Landed(pages)[k] == lib.site[k]
    ensures AllSuperseded(id, Superseding(id, lib.stored, pages), Landed(pages))
  {
    if pages != [] {
      var init := pages[..|pages| - 1];
      var p := pages[|pages| - 1];
      assert PageOf(lib, p);
      SupersededAreOlder(id, lib, init);
      var before := Superseding(id, lib.stored, init);
      var sup := Superseding(id, lib.stored, pages);
      forall i | 0 <= i < |sup| ensures SupersededIn(id, sup[i], Landed(pages)) {
        if i < |before| {
          assert sup[i] == before[i] && SupersededIn(id, before[i], Landed(init));
        }
      }
    }
  }

  /** A library's crawl applied to it. */
  function Crawled(lib: Library, c: Crawl): Library {
    lib.(stored := lib.stored + Landed(c.pages))
  }

  predicate AllOlder(id: LibId, lib: Library, rs: seq<Item>) {
    forall i | 0 <= i < |rs| :: rs[i].lib == id && Older(lib, rs[i])
  }

  lemma CrawledStocks(lib: Library, c: Crawl)
    requires CrawlOf(lib, c)
    ensures !Bare(Crawled(lib, c))
  {
    hide Landed;
    var k :| k in Landed(c.pages);
    assert k in Crawled(lib, c).stored;
  }

  lemma CrawledOk(id: LibId, lib: Library, c: Crawl)
    requires SiteOk(lib) && CrawlOf(lib, c)
    ensures SiteOk(Crawled(lib, c)) && Grows(lib, Crawled(lib, c))
    ensures AllOlder(id, Crawled(lib, c), Superseding(id, lib.stored, c.pages))
  {
    SupersededAreOlder(id, lib, c.pages);
    hide Superseding, Landed;
  }

  /** A library that only grows keeps what was said of its older items. */
  ghost predicate Grows(lib: Library, grown: Library) {
    forall r | Older(lib, r) :: Older(grown, r)
  }

  lemma LibOk(s: State, id: LibId)
    requires LibsOk(s) && id in s.libs
    ensures SiteOk(s.libs[id]) && id.number < s.nextLib
  {
  }

  /** One library updated in place: what was said of items stays true. */
  lemma ItemStaysOk(s: State, t: State, id: LibId, r: Item)
    requires id in s.libs && id in t.libs && t.libs == s.libs[id := t.libs[id]] && Grows(s.libs[id], t.libs[id])
    requires t.nextLib == s.nextLib && ItemOk(s, r)
    ensures ItemOk(t, r)
  {
    hide Older;
    if r.lib != id && r.lib in t.libs {
      assert t.libs[r.lib] == s.libs[r.lib];
    }
  }

  lemma UpdatedLibsOk(s: State, t: State, id: LibId, lib: Library)
    requires LibsOk(s) && id in s.libs && t.libs == s.libs[id := lib] && SiteOk(lib) && t.nextLib == s.nextLib
    ensures LibsOk(t) && |t.libs| == |s.libs| && t.libs.Keys == s.libs.Keys
  {
    hide SiteOk;
    assert t.libs.Keys == s.libs.Keys;
    assert |t.libs| == |t.libs.Keys| == |s.libs|;
  }

  lemma UpdatedGoneOk(s: State, t: State)
    requires DeletedOk(s) && SameGone(s.deleted, t.deleted) && t.libs.Keys == s.libs.Keys && t.nextLib == s.nextLib
    ensures DeletedOk(t)
  {
  }

  lemma UpdateOk(args: Args, s: State, t: State, id: LibId, lib: Library)
    requires StateOk(args, s) && id in s.libs && t.libs == s.libs[id := lib] && SiteOk(lib) && Grows(s.libs[id], lib)
    requires t.nextLib == s.nextLib && SameGone(s.deleted, t.deleted)
    ensures LibsOk(t) && DeletedOk(t) && |t.libs| == |s.libs| && t.libs.Keys == s.libs.Keys
    ensures forall r | ItemOk(s, r) :: ItemOk(t, r)
  {
    hide SiteOk, Grows, ItemOk, LibsOk, DeletedOk, SameGone, ReplacedOk;
    UpdatedLibsOk(s, t, id, lib);
    UpdatedGoneOk(s, t);
    forall r | ItemOk(s, r) ensures ItemOk(t, r) {
      ItemStaysOk(s, t, id, r);
    }
  }

  predicate SameGone(a: seq<Gone>, b: seq<Gone>) {
    |a| == |b| && forall i | 0 <= i < |a| :: a[i].id == b[i].id
  }

  lemma ReplacedGrowsOk(s: State, t: State, more: seq<Item>, n: nat)
    requires ReplacedOk(s) && (forall r | ItemOk(s, r) :: ItemOk(t, r))
    requires forall i | 0 <= i < |more| :: ItemOk(t, more[i])
    requires t.replaced == Last(s.replaced + more, n) || t.replaced == s.replaced + more
    ensures ReplacedOk(t)
  {
    var all := s.replaced + more;
    forall i | 0 <= i < |all| ensures ItemOk(t, all[i]) {
      if i < |s.replaced| {
        assert ItemOk(s, s.replaced[i]);
      } else {
        assert ItemOk(t, more[i - |s.replaced|]);
      }
    }
    forall i | 0 <= i < |t.replaced| ensures ItemOk(t, t.replaced[i]) {
      assert t.replaced[i] == all[|all| - |t.replaced| + i];
    }
  }

  lemma ApplyCrawlOk(args: Args, s: State, c: Crawl)
    requires StateOk(args, s) && c.job.lib in s.libs && CrawlOf(s.libs[c.job.lib], c)
    ensures StateOk(args, ApplyCrawl(s, c))
    ensures ApplyCrawl(s, c).libs == s.libs[c.job.lib := Crawled(s.libs[c.job.lib], c)]
    ensures !Bare(Crawled(s.libs[c.job.lib], c))
  {
    var id := c.job.lib;
    var lib := s.libs[id];
    CrawledOk(id, lib, c);
    CrawledStocks(lib, c);
    var t := ApplyCrawl(s, c);
    UpdateOk(args, s, t, id, Crawled(lib, c));
    var sup := Superseding(id, lib.stored, c.pages);
    assert t.libs[id] == Crawled(lib, c);
    forall i | 0 <= i < |sup| ensures ItemOk(t, sup[i]) {
    }
    ReplacedGrowsOk(s, t, sup, KEEP_REPLACED);
  }

  /* ---- the stages ---- */

  lemma PublishOk(args: Args, s: State, id: LibId, key: nat)
    requires StateOk(args, s) && id in s.libs && key <= s.libs[id].nextDoc
    ensures StateOk(args, PublishIn(s, id, key).0)
    ensures PublishIn(s, id, key).0.libs.Keys == s.libs.Keys
    ensures Stocked(s) ==> Stocked(PublishIn(s, id, key).0)
  {
    hide DeletedOk, LibsOk;
    var t := PublishIn(s, id, key).0;
    var lib := s.libs[id];
    LibOk(s, id);
    UpdateOk(args, s, t, id, t.libs[id]);
    var more := if key in lib.docs then [Document(id, key, lib.docs[key].version)] else [];
    assert forall i | 0 <= i < |more| :: ItemOk(t, more[i]);
    ReplacedGrowsOk(s, t, more, KEEP_REPLACED);
  }

  lemma LastAt<T>(s: seq<T>, n: nat, i: nat)
    requires i < |Last(s, n)|
    ensures |Last(s, n)| <= |s| && Last(s, n)[i] == s[|s| - |Last(s, n)| + i]
  {
  }

  lemma DeletedGrowsOk(s: State, t: State, g: Gone)
    requires DeletedOk(s) && g.id in s.libs && g.id.number < s.nextLib
    requires t.libs == s.libs - {g.id} && t.nextLib == s.nextLib && t.deleted == Last(s.deleted + [g], KEEP_DELETED)
    ensures DeletedOk(t)
  {
    var all := s.deleted + [g];
    LastLength(all, KEEP_DELETED);
    hide Last;
    forall i | 0 <= i < |t.deleted| ensures t.deleted[i] == all[|all| - |t.deleted| + i] {
      LastAt(all, KEEP_DELETED, i);
    }
  }

  lemma LastLength<T>(s: seq<T>, n: nat)
    ensures |Last(s, n)| == Min(|s|, n)
  {
  }

  lemma DeleteOk(args: Args, s: State, id: LibId)
    requires StateOk(args, s) && id in s.libs
    ensures StateOk(args, DeleteFrom(s, id))
    ensures DeleteFrom(s, id).libs.Keys == s.libs.Keys - {id}
    ensures Stocked(s) ==> Stocked(DeleteFrom(s, id))
  {
    hide GoneOf, Last, DeletedOk, SiteOk, Older, Bare;
    var t := DeleteFrom(s, id);
    DeletedGrowsOk(s, t, GoneOf(id, s.libs[id])) by {
      assert GoneOf(id, s.libs[id]).id == id by { GoneNames(id, s.libs[id]); }
    }
    assert t.libs.Keys == s.libs.Keys - {id};
    assert |t.libs.Keys| == |s.libs.Keys| - 1;
    forall i | 0 <= i < |t.replaced| ensures ItemOk(t, t.replaced[i]) {
      assert ItemOk(s, s.replaced[i]);
    }
  }

  lemma GoneNames(id: LibId, lib: Library)
    ensures GoneOf(id, lib).id == id
  {
  }

  lemma RefreshOk(args: Args, s: State, id: LibId, draw: CrawlDraw, job: Job)
    requires StateOk(args, s) && id in s.libs
    ensures var t := RefreshIn(s, id, draw);
            StateOk(args, t) && t.libs.Keys == s.libs.Keys && CrawlOf(t.libs[id], Crawl(job, PageSpecs(t.libs[id], draw)))
    ensures Stocked(s) ==> Stocked(RefreshIn(s, id, draw))
  {
    hide DeletedOk, LibsOk, Surveyed, PageSpecs, CrawlOf;
    var t := RefreshIn(s, id, draw);
    assert SiteOk(s.libs[id]) by { LibOk(s, id); }
    SurveyedOk(s.libs[id], Refresh, draw);
    UpdateOk(args, s, t, id, t.libs[id]);
    SpecsCover(t.libs[id], draw, job);
    ReplacedGrowsOk(s, t, [], KEEP_REPLACED);
  }

  lemma AddLibOk(args: Args, s: State, t: State, id: LibId, lib: Library)
    requires StateOk(args, s) && |s.libs| < args.libraries && id !in s.libs && id.number == s.nextLib && SiteOk(lib)
    requires t.libs == s.libs[id := lib] && t.nextLib == s.nextLib + 1
    requires t.deleted == s.deleted && t.replaced == s.replaced
    ensures StateOk(args, t)
  {
    hide SiteOk, Older;
    assert t.libs.Keys == s.libs.Keys + {id};
    forall i | 0 <= i < |t.replaced| ensures ItemOk(t, t.replaced[i]) {
      assert ItemOk(s, s.replaced[i]);
    }
  }

  lemma NewLibraryOk(args: Args)
    requires args.pages >= 1
    ensures SiteOk(NewLibrary(args))
  {
    assert 1 in NewLibrary(args).site;
  }

  lemma NewNumber(s: State, cycle: nat)
    requires LibsOk(s)
    ensures LibId(cycle, s.nextLib) !in s.libs
  {
  }

  lemma CreateInOk(args: Args, cycle: nat, s: State)
    requires StateOk(args, s) && args.pages >= 1 && |s.libs| < args.libraries
    ensures StateOk(args, CreateIn(args, cycle, s))
    ensures LibId(cycle, s.nextLib) !in s.libs
  {
    NewLibraryOk(args);
    NewNumber(s, cycle);
    hide StateOk, SiteOk, NewLibrary;
    AddLibOk(args, s, CreateIn(args, cycle, s), LibId(cycle, s.nextLib), NewLibrary(args));
  }

  /* ---- the whole plan ---- */

  /** Library `id` is one of the first `n` the crawls are of. */
  predicate CrawlIn(crawls: seq<Crawl>, n: nat, id: LibId) {
    exists i :: 0 <= i < n && i < |crawls| && crawls[i].job.lib == id
  }

  /** What a plan's crawls are: of live libraries, each of the site as
      surveyed, and every library not yet crawled is among them. */
  ghost predicate CrawlsOk(s: State, crawls: seq<Crawl>) {
    && (forall i | 0 <= i < |crawls| :: crawls[i].job.lib in s.libs && CrawlOf(s.libs[crawls[i].job.lib], crawls[i]))
    && (forall id | id in s.libs && Bare(s.libs[id]) :: CrawlIn(crawls, |crawls|, id))
  }

  lemma CreateOneOk(args: Args, cycle: nat, s: State, crawls: seq<Crawl>, draw: CrawlDraw)
    requires StateOk(args, s) && CrawlsOk(s, crawls) && args.pages >= 1 && |s.libs| < args.libraries
    ensures var c := Crawl(Job(LibId(cycle, s.nextLib), cycle, Site), PageSpecs(NewLibrary(args), draw));
            StateOk(args, CreateIn(args, cycle, s)) && CrawlsOk(CreateIn(args, cycle, s), crawls + [c])
  {
    CreateInOk(args, cycle, s);
    var c := Crawl(Job(LibId(cycle, s.nextLib), cycle, Site), PageSpecs(NewLibrary(args), draw));
    assert 1 in NewLibrary(args).site;
    SpecsCover(NewLibrary(args), draw, c.job);
    CrawlsExtended(s, CreateIn(args, cycle, s), crawls, c);
  }

  lemma CrawlsExtended(s: State, t: State, crawls: seq<Crawl>, c: Crawl)
    requires CrawlsOk(s, crawls) && c.job.lib !in s.libs && c.job.lib in t.libs && CrawlOf(t.libs[c.job.lib], c)
    requires t.libs == s.libs[c.job.lib := t.libs[c.job.lib]]
    ensures CrawlsOk(t, crawls + [c])
  {
    hide Bare, CrawlOf;
    var all := crawls + [c];
    forall x | x in t.libs && Bare(t.libs[x]) ensures CrawlIn(all, |all|, x) {
      if x == c.job.lib {
        assert all[|crawls|].job.lib == x;
      } else {
        assert CrawlIn(crawls, |crawls|, x);
        var i :| 0 <= i < |crawls| && crawls[i].job.lib == x;
        assert all[i].job.lib == x;
      }
    }
  }

  /** Creating libraries touches nothing else. */
  lemma {:induction false} CreateOk(args: Args, cycle: nat, s: State, d: Draws, wanted: nat, first: seq<Crawl>)
    requires StateOk(args, s) && args.pages >= 1 && CrawlsOk(s, first)
    ensures var (t, crawls) := StageCreate(args, cycle, s, d, wanted);
            StateOk(args, t) && CrawlsOk(t, first + crawls) && t.pending == s.pending
  {
    hide StateOk, CrawlsOk, PageSpecs, NewLibrary;
    if wanted == 0 {
      assert first + [] == first;
    } else {
      CreateOk(args, cycle, s, d, wanted - 1, first);
      var (t, crawls) := StageCreate(args, cycle, s, d, wanted - 1);
      if |t.libs| < args.libraries {
        CreateOneOk(args, cycle, t, first + crawls, d.create(wanted - 1));
        var c := Crawl(Job(LibId(cycle, t.nextLib), cycle, Site), PageSpecs(NewLibrary(args), d.create(wanted - 1)));
        assert first + (crawls + [c]) == (first + crawls) + [c];
      }
    }
  }

  lemma KeyDrawn(args: Args, lib: Library, d: Draws)
    requires SiteOk(lib) && Fair(args, d)
    ensures DocumentKey(lib, d) <= lib.nextDoc
  {
  }

  lemma DocumentOk(args: Args, cycle: nat, s: State, d: Draws)
    requires StateOk(args, s) && Stocked(s) && Fair(args, d)
    ensures var t := StageDocument(cycle, s, d).0; StateOk(args, t) && Stocked(t) && t.pending == s.pending
    ensures StageDocument(cycle, s, d).0.libs.Keys == s.libs.Keys
  {
    var id := d.docLib(s.libs.Keys);
    if DocumentDue(cycle, s, d) && id in s.libs {
      KeyDrawn(args, s.libs[id], d);
      PublishOk(args, s, id, DocumentKey(s.libs[id], d));
    }
  }

  lemma DeleteStageOk(args: Args, cycle: nat, s: State, d: Draws)
    requires StateOk(args, s) && Stocked(s)
    ensures var t := StageDelete(cycle, s, d).0; StateOk(args, t) && Stocked(t) && t.pending == s.pending
  {
    hide StateOk, Stocked, GoneOf, Last;
    var id := d.deleteLib(s.libs.Keys);
    if DeleteDue(cycle, s, d) && id in s.libs {
      DeleteOk(args, s, id);
    }
  }

  lemma SwitchOk(args: Args, cycle: nat, s: State)
    requires StateOk(args, s) && Stocked(s)
    ensures StateOk(args, StageSwitch(args, cycle, s)) && Stocked(StageSwitch(args, cycle, s))
    ensures StageSwitch(args, cycle, s).pending == s.pending
  {
    CountsOk(args, s, StageSwitch(args, cycle, s).counts);
    hide StateOk, Stocked;
  }

  lemma EarlyStagesOk(args: Args, cycle: nat, s: State, d: Draws)
    requires StateOk(args, s) && Stocked(s) && Fair(args, d)
    ensures var s2 := StageDelete(cycle, StageDocument(cycle, StageSwitch(args, cycle, s), d).0, d).0;
            StateOk(args, s2) && Stocked(s2) && s2.pending == s.pending
  {
    hide StateOk, Stocked, Fair, StageSwitch, StageDocument, StageDelete;
    var s0 := StageSwitch(args, cycle, s);
    SwitchOk(args, cycle, s);
    DocumentOk(args, cycle, s0, d);
    DeleteStageOk(args, cycle, StageDocument(cycle, s0, d).0, d);
  }

  lemma RefreshStageOk(args: Args, cycle: nat, s: State, d: Draws)
    requires StateOk(args, s) && Stocked(s)
    ensures var (t, crawls) := StageRefresh(cycle, s, d);
            StateOk(args, t) && CrawlsOk(t, crawls) && t.pending == s.pending
  {
    hide StateOk, CrawlOf, PageSpecs, Surveyed, Bare;
    var id := d.refreshLib(s.libs.Keys);
    if RefreshDue(cycle, s, d) && id in s.libs {
      RefreshOk(args, s, id, d.refresh, Job(id, cycle, Refresh));
    }
  }

  lemma StagesOk(args: Args, cycle: nat, final: bool, s: State, d: Draws)
    requires StateOk(args, s) && Stocked(s) && Fair(args, d) && args.pages >= 1
    ensures var (t, ops, crawls) := Stages(args, cycle, final, s, d);
            StateOk(args, t) && CrawlsOk(t, crawls) && t.pending == s.pending
  {
    if !final {
      EarlyStagesOk(args, cycle, s, d);
      var s2 := StageDelete(cycle, StageDocument(cycle, StageSwitch(args, cycle, s), d).0, d).0;
      RefreshStageOk(args, cycle, s2, d);
      var (s3, refreshes) := StageRefresh(cycle, s2, d);
      CreateOk(args, cycle, s3, d, Wanted(cycle, d), refreshes);
    }
  }

  /** What applying one crawl keeps, next to the invariant. */
  ghost predicate Advances(s: State, t: State) {
    && t.libs.Keys == s.libs.Keys && t.pending == s.pending
    && (forall id | id in s.libs :: t.libs[id].site == s.libs[id].site)
    && (forall id | id in s.libs && !Bare(s.libs[id]) :: !Bare(t.libs[id]))
  }

  lemma ApplyAdvances(args: Args, s: State, c: Crawl)
    requires StateOk(args, s) && c.job.lib in s.libs && CrawlOf(s.libs[c.job.lib], c)
    ensures StateOk(args, ApplyCrawl(s, c)) && Advances(s, ApplyCrawl(s, c)) && !Bare(ApplyCrawl(s, c).libs[c.job.lib])
  {
    hide StateOk, CrawlOf, Bare, Superseding, Landed, Crawled, Last;
    ApplyCrawlOk(args, s, c);
    assert ApplyCrawl(s, c).libs.Keys == s.libs.Keys;
  }

  lemma AdvancesTransitive(s: State, t: State, u: State)
    requires Advances(s, t) && Advances(t, u)
    ensures Advances(s, u)
  {
  }

  /** Applying one crawl more. */
  lemma ApplyOneMore(s: State, crawls: seq<Crawl>, n: nat)
    requires 0 < n <= |crawls|
    ensures ApplyCrawls(s, crawls[..n]) == ApplyCrawl(ApplyCrawls(s, crawls[..n - 1]), crawls[n - 1])
  {
    hide ApplyCrawl;
    assert crawls[..n][..n - 1] == crawls[..n - 1];
  }

  lemma AdvancesNothing(s: State)
    ensures Advances(s, s) && ApplyCrawls(s, []) == s
  {
  }

  lemma CrawlAt(s: State, t: State, crawls: seq<Crawl>, i: nat)
    requires CrawlsOk(s, crawls) && Advances(s, t) && i < |crawls|
    ensures crawls[i].job.lib in t.libs && CrawlOf(t.libs[crawls[i].job.lib], crawls[i])
  {
    hide Landed;
  }

  lemma {:induction false} ApplyCrawlsOk(args: Args, s: State, crawls: seq<Crawl>, n: nat)
    requires StateOk(args, s) && CrawlsOk(s, crawls) && n <= |crawls|
    ensures StateOk(args, ApplyCrawls(s, crawls[..n])) && Advances(s, ApplyCrawls(s, crawls[..n]))
    ensures forall id | CrawlIn(crawls, n, id) :: id in s.libs && !Bare(ApplyCrawls(s, crawls[..n]).libs[id])
  {
    hide StateOk, Bare, ApplyCrawl, ApplyCrawls, CrawlsOk, CrawlOf;
    if n == 0 {
      assert crawls[..0] == [];
      AdvancesNothing(s);
      return;
    }
    ApplyCrawlsOk(args, s, crawls, n - 1);
    ApplyOneMore(s, crawls, n);
    var t := ApplyCrawls(s, crawls[..n - 1]);
    CrawlAt(s, t, crawls, n - 1);
    ApplyAdvances(args, t, crawls[n - 1]);
    AdvancesTransitive(s, t, ApplyCrawl(t, crawls[n - 1]));
    forall id | CrawlIn(crawls, n, id) ensures id in s.libs && !Bare(ApplyCrawl(t, crawls[n - 1]).libs[id]) {
      if id != crawls[n - 1].job.lib {
        assert CrawlIn(crawls, n - 1, id);
      }
    }
  }

  lemma AppliedOk(args: Args, cycle: nat, final: bool, s: State, d: Draws)
    requires StateOk(args, s) && Stocked(s) && Fair(args, d) && args.pages >= 1
    ensures var (t, _, crawls) := Stages(args, cycle, final, s, d);
            var u := ApplyCrawls(t, crawls);
            StateOk(args, u) && Stocked(u) && u.pending == s.pending
  {
    hide StateOk, Stages, Fair, Bare;
    StagesOk(args, cycle, final, s, d);
    var (t, ops, crawls) := Stages(args, cycle, final, s, d);
    ApplyCrawlsOk(args, t, crawls, |crawls|);
    assert crawls[..|crawls|] == crawls;
    var u := ApplyCrawls(t, crawls);
    forall id | id in u.libs ensures !Bare(u.libs[id]) {
      if Bare(t.libs[id]) {
        assert CrawlIn(crawls, |crawls|, id);
      }
    }
  }

  lemma CountsOk(args: Args, s: State, counts: Counts)
    requires StateOk(args, s) && Stocked(s)
    ensures StateOk(args, s.(counts := counts)) && Stocked(s.(counts := counts))
  {
    assert forall i | 0 <= i < |s.replaced| :: ItemOk(s, s.replaced[i]) ==> ItemOk(s.(counts := counts), s.replaced[i]);
  }

  /** A planned cycle keeps the invariant, and every library it leaves live
      holds a page. */
  lemma PlannedOk(args: Args, cycle: nat, final: bool, probe: set<LibId>, s: State, d: Draws)
    requires StateOk(args, s) && Stocked(s) && Fair(args, d) && args.pages >= 1
    ensures var proj := Planned(args, cycle, final, probe, s, d).1;
            StateOk(args, proj) && Stocked(proj) && proj.pending == s.pending
  {
    hide StateOk, Stages, Fair, Stocked, ApplyCrawls, CrashDue, Facts, GoneFacts, Probed, CrawlOps;
    AppliedOk(args, cycle, final, s, d);
    var (t, ops, crawls) := Stages(args, cycle, final, s, d);
    var u := ApplyCrawls(t, crawls);
    CountsOk(args, u, u.counts.(crashes := u.counts.crashes + 1));
  }

  /** A crash is planned inside the last crawl, at any page that is drawn, and
      never in a final start. */
  lemma PlanShape(args: Args, cycle: nat, final: bool, probe: set<LibId>, s: State, d: Draws)
    ensures var plan := Planned(args, cycle, final, probe, s, d).0;
            CrashInCrawl(plan) && plan.resume == s.pending && (final ==> plan.crash == None)
    ensures var plan := Planned(args, cycle, final, probe, s, d).0;
            plan.crash.Some? ==>
              var pages := plan.ops[plan.crash.value.opIndex].crawl.pages;
              plan.crash.value.pageIndex < |pages| && (d.crashPage < |pages| ==> plan.crash.value.pageIndex == d.crashPage)
  {
    hide Stages, ApplyCrawls, Facts, GoneFacts, Probed;
    var (t, ops, crawls) := Stages(args, cycle, final, s, d);
    if crawls != [] {
      assert (ops + CrawlOps(crawls))[|ops| + |crawls| - 1] == CrawlOps(crawls)[|crawls| - 1];
    }
  }

  /* ---- the oracle ---- */

  /** No page or document at a version is asked for and required absent. */
  ghost predicate Consistent(plan: Plan) {
    forall g | g in plan.absent :: g.item !in plan.ask
  }

  lemma OracleConsistent(args: Args, cycle: nat, final: bool, probe: set<LibId>, s: State, d: Draws)
    requires StateOk(args, s) && Stocked(s) && Fair(args, d) && args.pages >= 1
    ensures var (plan, proj) := Planned(args, cycle, final, probe, s, d);
            plan.ask <= Facts(proj) && plan.absent <= GoneFacts(proj) && Consistent(plan)
  {
    var (plan, proj) := Planned(args, cycle, final, probe, s, d);
    PlannedOk(args, cycle, final, probe, s, d);
    forall g | g in GoneFacts(proj) ensures g.item !in Facts(proj) {
      GoneIsNotHeld(args, proj, g);
    }
  }

  lemma NotHeld(s: State, f: Item)
    requires f.lib !in s.libs || Older(s.libs[f.lib], f)
    ensures f !in Facts(s)
  {
  }

  /** A kept deleted library is not live. */
  lemma GoneNotLive(s: State, id: LibId)
    requires DeletedOk(s) && Deleted(s, id)
    ensures id !in s.libs
  {
  }

  lemma ReplacedNotHeld(s: State, i: nat)
    requires ReplacedOk(s) && i < |Last(s.replaced, ASK_REPLACED)|
    ensures Last(s.replaced, ASK_REPLACED)[i] !in Facts(s)
  {
    LastAt(s.replaced, ASK_REPLACED, i);
    hide Facts, Last;
    var r := Last(s.replaced, ASK_REPLACED)[i];
    assert ItemOk(s, r);
    NotHeld(s, r);
  }

  lemma LastDeleted(s: State, g: Gone)
    requires g in Last(s.deleted, ASK_DELETED)
    ensures Deleted(s, g.id)
  {
    var last := Last(s.deleted, ASK_DELETED);
    var i :| 0 <= i < |last| && last[i] == g;
    LastAt(s.deleted, ASK_DELETED, i);
  }

  lemma GoneIsNotHeld(args: Args, s: State, g: Absent)
    requires StateOk(args, s) && g in GoneFacts(s)
    ensures g.item !in Facts(s)
    ensures g.deleted <==> g.item.lib !in s.libs
  {
    hide DeletedOk, ReplacedOk, LibsOk, Facts, Deleted;
    if g.deleted {
      if h :| h in Last(s.deleted, ASK_DELETED) && h.id == g.item.lib {
        LastDeleted(s, h);
      }
      GoneNotLive(s, g.item.lib);
      NotHeld(s, g.item);
    } else {
      var last := Last(s.replaced, ASK_REPLACED);
      hide Last;
      assert g.item in last;
      var i :| 0 <= i < |last| && last[i] == g.item;
      ReplacedNotHeld(s, i);
    }
  }

  /** A deleted library held the item. */
  predicate HeldBy(g: Gone, f: Item) {
    match f
    case Page(id, k, v) => g.id == id && k in g.stored && g.stored[k] == v
    case Document(id, k, v) => g.id == id && k in g.docs && g.docs[k] == v
  }

  /** What may be required absent, exactly: the versions replaced last, of
      libraries live or still known as deleted, and all that the libraries
      deleted last held; marked deleted when the library is not live. */
  lemma GoneExactly(args: Args, s: State, f: Item)
    requires StateOk(args, s)
    ensures Absent(f, f.lib !in s.libs) in GoneFacts(s) <==>
              || (f in Last(s.replaced, ASK_REPLACED) && (f.lib in s.libs || Deleted(s, f.lib)))
              || (exists g | g in Last(s.deleted, ASK_DELETED) :: HeldBy(g, f))
  {
    if f.lib in s.libs && Deleted(s, f.lib) {
      GoneNotLive(s, f.lib);
    }
    if g :| g in Last(s.deleted, ASK_DELETED) && HeldBy(g, f) {
      LastDeleted(s, g);
      GoneNotLive(s, f.lib);
    }
  }

  /** A plan asks for as many answers as configured, and requires as many
      absent, or for all there are. */
  lemma SampleSizes(args: Args, cycle: nat, final: bool, probe: set<LibId>, s: State, d: Draws)
    requires Fair(args, d)
    ensures var (plan, proj) := Planned(args, cycle, final, probe, s, d);
            && |plan.ask| >= Min(args.questions, |Facts(proj)|)
            && |plan.absent| == Min(args.questions, |GoneFacts(proj)|)
  {
    hide Stages, ApplyCrawls, CrashDue, GoneFacts, Facts, Probed, CrawlOps;
    var (plan, proj) := Planned(args, cycle, final, probe, s, d);
    var sample := d.ask(Facts(proj));
    assert sample <= plan.ask;
    Subset(sample, plan.ask);
  }

  lemma Subset<T>(a: set<T>, b: set<T>)
    requires a <= b
    ensures |a| <= |b|
  {
    assert b == a + (b - a);
  }

  /** A library the last process could not read is asked about by the next
      start, if it is still live: the sample cannot pass it over. */
  lemma ProbeIsAsked(args: Args, cycle: nat, final: bool, probe: set<LibId>, s: State, d: Draws, id: LibId)
    requires StateOk(args, s) && Stocked(s) && Fair(args, d) && args.pages >= 1
    requires id in probe && id in Planned(args, cycle, final, probe, s, d).1.libs
    ensures exists f :: f in Planned(args, cycle, final, probe, s, d).0.ask && f.lib == id
  {
    PlannedOk(args, cycle, final, probe, s, d);
    hide StateOk, Stages, ApplyCrawls, CrashDue, GoneFacts, CrawlOps, Facts, FactsOf, Stocked, Fair;
    var (plan, proj) := Planned(args, cycle, final, probe, s, d);
    ProbeCovered(args, proj, d, probe, id);
  }

  lemma ProbeCovered(args: Args, s: State, d: Draws, probe: set<LibId>, id: LibId)
    requires Stocked(s) && Fair(args, d) && id in probe && id in s.libs
    ensures var sample := d.ask(Facts(s));
            exists f :: f in sample + Probed(s, sample, probe, d.probe) && f.lib == id
  {
    var sample := d.ask(Facts(s));
    assert !Bare(s.libs[id]);
    assert s.libs[id].stored.Keys != {};
    var k :| k in s.libs[id].stored;
    assert Page(id, k, s.libs[id].stored[k]) in FactsOf(s, id);
    var f := d.probe(FactsOf(s, id));
    assert f in FactsOf(s, id);
    if forall g | g in sample :: g.lib != id {
      assert f in Probed(s, sample, probe, d.probe);
    }
  }

  /* ---- what a commit keeps ---- */

  lemma FillLiveOk(args: Args, s: State, id: LibId, key: nat, r: Result)
    requires StateOk(args, s) && Stocked(s) && id in s.libs && key in s.libs[id].docs
    ensures StateOk(args, FillDocument(s, id, key, r)) && Stocked(FillDocument(s, id, key, r))
  {
    hide DeletedOk, LibsOk, ReplacedOk;
    assert SiteOk(s.libs[id]) by { LibOk(s, id); }
    var t := FillDocument(s, id, key, r);
    UpdateOk(args, s, t, id, t.libs[id]);
    ReplacedGrowsOk(s, t, [], KEEP_REPLACED);
  }

  lemma FillDocumentOk(args: Args, s: State, id: LibId, key: nat, r: Result)
    requires StateOk(args, s) && Stocked(s)
    ensures StateOk(args, FillDocument(s, id, key, r)) && Stocked(FillDocument(s, id, key, r))
    ensures FillDocument(s, id, key, r).counts == s.counts
  {
    hide SiteOk, Older, Bare;
    if id in s.libs && key in s.libs[id].docs {
      FillLiveOk(args, s, id, key, r);
      return;
    }
    var t := FillDocument(s, id, key, r);
    assert SameGone(s.deleted, t.deleted);
    UpdatedGoneOk(s, t);
    hide DeletedOk, AppendDocument;
    assert forall i | 0 <= i < |s.replaced| :: ItemOk(s, s.replaced[i]) ==> ItemOk(t, t.replaced[i]);
  }

  lemma CommitOpOk(args: Args, s: State, plan: Plan, done: map<nat, Result>, crashed: bool, i: nat)
    requires StateOk(args, s) && Stocked(s) && i < |plan.ops| && CrashInCrawl(plan)
    ensures var t := CommitOp(s, plan, done, crashed, i);
            StateOk(args, t) && Stocked(t) && t.counts == s.counts
  {
    if i in done && plan.ops[i].DocumentOp? {
      FillDocumentOk(args, s, plan.ops[i].lib, plan.ops[i].key, done[i]);
    }
  }

  lemma {:induction false} CommitOpsOk(args: Args, s: State, plan: Plan, done: map<nat, Result>, crashed: bool, n: nat)
    requires StateOk(args, s) && Stocked(s) && n <= |plan.ops| && CrashInCrawl(plan)
    ensures StateOk(args, CommitOps(s, plan, done, crashed, n))
    ensures Stocked(CommitOps(s, plan, done, crashed, n)) && CommitOps(s, plan, done, crashed, n).counts == s.counts
  {
    hide StateOk, Stocked, CommitOp;
    if n > 0 {
      CommitOpsOk(args, s, plan, done, crashed, n - 1);
      CommitOpOk(args, CommitOps(s, plan, done, crashed, n - 1), plan, done, crashed, n - 1);
    }
  }

  lemma CommitOk(args: Args, plan: Plan, proj: State, lines: seq<Line>, crashed: bool)
    requires StateOk(args, proj) && Stocked(proj) && CrashInCrawl(plan)
    ensures var s := Committed(plan, proj, lines, crashed);
            StateOk(args, s) && Stocked(s) && s.counts == proj.counts
  {
    hide CommitOps, Done, Resumed, StillPending;
    assert forall i | 0 <= i < |proj.replaced| :: ItemOk(proj, proj.replaced[i]);
    CommitOpsOk(args, proj.(pending := StillPending(proj.pending, Resumed(lines))), plan, Done(lines), crashed, |plan.ops|);
  }

  /* ---- every run ---- */

  /** One cycle of a run: what is drawn, and what the child printed and how it
      ended.  Nothing is assumed of the child. */
  datatype Turn = Turn(final: bool, probe: set<LibId>, draws: Draws, lines: seq<Line>, crashed: bool)

  function TakeTurn(args: Args, cycle: nat, s: State, t: Turn): State {
    PlanShape(args, cycle, t.final, t.probe, s, t.draws);
    var (plan, proj) := Planned(args, cycle, t.final, t.probe, s, t.draws);
    Committed(plan, proj, t.lines, t.crashed)
  }

  /** The parent's state after the cycles so far. */
  function After(args: Args, turns: seq<Turn>): State {
    if turns == [] then NEW_STATE
    else TakeTurn(args, |turns|, After(args, turns[..|turns| - 1]), turns[|turns| - 1])
  }

  ghost predicate AllFair(args: Args, turns: seq<Turn>) {
    forall i | 0 <= i < |turns| :: Fair(args, turns[i].draws)
  }

  lemma TurnOk(args: Args, cycle: nat, s: State, t: Turn)
    requires StateOk(args, s) && Stocked(s) && Fair(args, t.draws) && args.pages >= 1
    ensures StateOk(args, TakeTurn(args, cycle, s, t)) && Stocked(TakeTurn(args, cycle, s, t))
  {
    hide StateOk, Stocked, Fair, Planned, Committed;
    PlanShape(args, cycle, t.final, t.probe, s, t.draws);
    PlannedOk(args, cycle, t.final, t.probe, s, t.draws);
    var (plan, proj) := Planned(args, cycle, t.final, t.probe, s, t.draws);
    CommitOk(args, plan, proj, t.lines, t.crashed);
  }

  /** The invariant holds in every state a run reaches, whatever its children
      printed. */
  lemma {:induction false} AfterOk(args: Args, turns: seq<Turn>)
    requires args.pages >= 1 && AllFair(args, turns)
    ensures StateOk(args, After(args, turns)) && Stocked(After(args, turns))
  {
    if turns != [] {
      hide StateOk, Stocked, Fair, TakeTurn;
      AfterOk(args, turns[..|turns| - 1]);
      TurnOk(args, |turns|, After(args, turns[..|turns| - 1]), turns[|turns| - 1]);
    }
  }

  /** In every run, after any cycles and with any child, the next plan asks
      only for what is stored, never for what must be absent, and asks every
      live library it was told to probe. */
  lemma OracleNeverContradicts(args: Args, turns: seq<Turn>, next: Turn)
    requires args.pages >= 1 && AllFair(args, turns) && Fair(args, next.draws)
    ensures var (plan, proj) := Planned(args, |turns| + 1, next.final, next.probe, After(args, turns), next.draws);
            && Consistent(plan) && plan.ask <= Facts(proj)
            && (forall id | id in next.probe && id in proj.libs :: exists f :: f in plan.ask && f.lib == id)
  {
    AfterOk(args, turns);
    hide StateOk, Stocked, Fair, Planned, Facts, Consistent;
    var s := After(args, turns);
    OracleConsistent(args, |turns| + 1, next.final, next.probe, s, next.draws);
    var (plan, proj) := Planned(args, |turns| + 1, next.final, next.probe, s, next.draws);
    forall id | id in next.probe && id in proj.libs ensures exists f :: f in plan.ask && f.lib == id {
      ProbeIsAsked(args, |turns| + 1, next.final, next.probe, s, next.draws, id);
    }
  }

  /** The bounds the run declares hold throughout: live libraries never exceed
      the configured number, at most twenty deleted ones are kept, and none of
      those is live. */
  lemma RunBounds(args: Args, turns: seq<Turn>)
    requires args.pages >= 1 && AllFair(args, turns)
    ensures var s := After(args, turns);
            && |s.libs| <= args.libraries && |s.deleted| <= KEEP_DELETED
            && (forall i | 0 <= i < |s.deleted| :: s.deleted[i].id !in s.libs)
  {
    AfterOk(args, turns);
  }
}
