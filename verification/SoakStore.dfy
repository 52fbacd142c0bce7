/** The stores a soak cycle works on and the child that works on them, in the
    order of `_soak_cycle` (scripts/knowledge_soak.py), and the proof that the
    parent's projection agrees with the stores through every crash and resume.
    The product behind the child is abstract: a crawl stores its pages that do
    not fail, a published version replaces the document's older one, a delete
    takes the library whole. */
module SoakStore {
  import opened SoakModel
  import opened SoakCommit
  import opened SoakOracle

  datatype DocRow = DocRow(key: nat, version: nat, versionId: nat, chunks: nat)
  datatype Shelf = Shelf(pages: map<nat, nat>, docs: map<nat, DocRow>)
  type Store = map<LibId, Shelf>

  /** What the product decides: whether a planned crash happens and what was
      stored before it, and the identities it gives out. */
  datatype Choices = Choices(
    dies: bool, kept: set<nat>, newDocument: nat -> nat, versionId: nat -> nat, chunks: nat -> nat)

  /** New documents get identities no stored document has. */
  ghost predicate Fresh(store: Store, ch: Choices) {
    forall i: nat, id | id in store :: ch.newDocument(i) !in store[id].docs
  }

  /* ---- the operations ---- */

  function ShelfOf(store: Store, id: LibId): Shelf {
    if id in store then store[id] else Shelf(map[], map[])
  }

  function StorePages(store: Store, id: LibId, landed: map<nat, nat>): Store {
    store[id := ShelfOf(store, id).(pages := ShelfOf(store, id).pages + landed)]
  }

  /** A crawl, or the resume of one, run to its end. */
  function ExecCrawl(store: Store, c: Crawl): Store {
    StorePages(store, c.job.lib, Landed(c.pages))
  }

  /** A crawl killed partway: some of the pages it would store. */
  function ExecKilled(store: Store, c: Crawl, kept: set<nat>): Store {
    StorePages(store, c.job.lib, map k | k in Landed(c.pages) && k in kept :: Landed(c.pages)[k])
  }

  function ExecCrawls(store: Store, crawls: seq<Crawl>): Store {
    if crawls == [] then store
    else ExecCrawl(ExecCrawls(store, crawls[..|crawls| - 1]), crawls[|crawls| - 1])
  }

  function DocumentIdOf(op: Op, i: nat, ch: Choices): nat
    requires op.DocumentOp?
  {
    if op.documentId.Some? then op.documentId.value else ch.newDocument(i)
  }

  function ExecOp(store: Store, op: Op, i: nat, ch: Choices): Store {
    match op
    case DocumentOp(id, key, version, _) =>
      var shelf := ShelfOf(store, id);
      store[id := shelf.(docs := shelf.docs[DocumentIdOf(op, i, ch) := DocRow(key, version, ch.versionId(i), ch.chunks(i))])]
    case DeleteOp(id) => store - {id}
    case CrawlOp(c) => ExecCrawl(store, c)
  }

  function ExecOps(store: Store, ops: seq<Op>, n: nat, ch: Choices): Store
    requires n <= |ops|
  {
    if n == 0 then store else ExecOp(ExecOps(store, ops, n - 1, ch), ops[n - 1], n - 1, ch)
  }

  predicate Killed(plan: Plan, ch: Choices) {
    ch.dies && plan.crash.Some?
  }

  function Ran(plan: Plan, ch: Choices): nat
    requires CrashInCrawl(plan)
  {
    if Killed(plan, ch) then plan.crash.value.opIndex else |plan.ops|
  }

  /** The stores after one cycle: resumes, then the operations in order. */
  function Leaves(plan: Plan, store: Store, ch: Choices): Store
    requires CrashInCrawl(plan)
  {
    var ran := ExecOps(ExecCrawls(store, plan.resume), plan.ops, Ran(plan, ch), ch);
    if Killed(plan, ch) then ExecKilled(ran, plan.ops[plan.crash.value.opIndex].crawl, ch.kept) else ran
  }

  /* ---- what the child prints ---- */

  const NOTHING := Result(None, map[], false, None, None, None, false, false)

  function Numbers(pages: seq<PageSpec>): set<nat> {
    set p | p in pages :: p.no
  }

  function CrawlResult(c: Crawl): Result {
    NOTHING.(
      status := Some(if exists p :: p in c.pages && p.fail then Partial else Completed),
      pages := map no | no in Numbers(c.pages) :: if no in Failing(c.pages) then Failed else Completed)
  }

  function OpResult(op: Op, i: nat, ch: Choices): Result {
    match op
    case DocumentOp(_, _, _, _) =>
      NOTHING.(ok := true, documentId := Some(DocumentIdOf(op, i, ch)),
               versionId := Some(ch.versionId(i)), chunks := Some(ch.chunks(i)))
    case DeleteOp(_) => NOTHING.(deleted := true, provenanceRemoved := true)
    case CrawlOp(c) => CrawlResult(c)
  }

  function ResumeLines(resume: seq<Crawl>): seq<Line> {
    if resume == [] then []
    else
      var c := resume[|resume| - 1];
      ResumeLines(resume[..|resume| - 1]) + [ResumeLine(c.job, CrawlResult(c))]
  }

  function OpLines(ops: seq<Op>, n: nat, ch: Choices): seq<Line>
    requires n <= |ops|
  {
    if n == 0 then [] else OpLines(ops, n - 1, ch) + [OpLine(n - 1, OpResult(ops[n - 1], n - 1, ch))]
  }

  function Printed(plan: Plan, ch: Choices): seq<Line>
    requires CrashInCrawl(plan)
  {
    ResumeLines(plan.resume) + OpLines(plan.ops, Ran(plan, ch), ch)
  }

  /** `_soak_cycle` over the stores: the pending crawls are resumed first, then
      the operations run in order, each printed when it has ended, until the
      end or the planned crash. */
  class KnowledgeStore {
    var shelves: Store

    method SoakCycle(plan: Plan, ch: Choices) returns (lines: seq<Line>, killed: bool)
      requires CrashInCrawl(plan)
      modifies this
      ensures shelves == Leaves(plan, old(shelves), ch)
      ensures lines == Printed(plan, ch) && killed == Killed(plan, ch)
    {
      hide ExecCrawl, ExecOp, ExecKilled, CrawlResult, OpResult;
      lines := [];
      for i := 0 to |plan.resume|
        invariant shelves == ExecCrawls(old(shelves), plan.resume[..i])
        invariant lines == ResumeLines(plan.resume[..i])
      {
        assert plan.resume[..i + 1][..i] == plan.resume[..i];
        shelves := ExecCrawl(shelves, plan.resume[i]);
        lines := lines + [ResumeLine(plan.resume[i].job, CrawlResult(plan.resume[i]))];
      }
      assert plan.resume[..|plan.resume|] == plan.resume;
      ghost var start := shelves;
      killed := false;
      for i := 0 to |plan.ops|
        invariant !killed && i <= Ran(plan, ch)
        invariant shelves == ExecOps(start, plan.ops, i, ch)
        invariant lines == ResumeLines(plan.resume) + OpLines(plan.ops, i, ch)
      {
        if ch.dies && plan.crash.Some? && plan.crash.value.opIndex == i {
          shelves := ExecKilled(shelves, plan.ops[i].crawl, ch.kept);
          killed := true;
          return;
        }
        shelves := ExecOp(shelves, plan.ops[i], i, ch);
        lines := lines + [OpLine(i, OpResult(plan.ops[i], i, ch))];
      }
    }
  }

  /* ---- agreement ---- */

  predicate RowOf(rows: map<nat, DocRow>, k: nat, doc: Doc) {
    && doc.documentId.Some? && doc.versionId.Some? && doc.chunks.Some? && doc.documentId.value in rows
    && rows[doc.documentId.value] == DocRow(k, doc.version, doc.versionId.value, doc.chunks.value)
  }

  predicate KnownDocument(docs: map<nat, Doc>, d: nat, row: DocRow) {
    row.key in docs && docs[row.key].documentId == Some(d)
  }

  /** The library's pages are the stored ones at their versions; each document
      is one row, and each row is a document. */
  ghost predicate LibAgrees(lib: Library, shelf: Shelf) {
    && shelf.pages == lib.stored
    && (forall k | k in lib.docs :: RowOf(shelf.docs, k, lib.docs[k]))
    && (forall d | d in shelf.docs :: KnownDocument(lib.docs, d, shelf.docs[d]))
  }

  /** The store holds the libraries that were crawled, as planned. */
  ghost predicate Matches(libs: map<LibId, Library>, store: Store) {
    && (forall id | id in store :: id in libs && !Bare(libs[id]) && LibAgrees(libs[id], store[id]))
    && (forall id | id in libs && !Bare(libs[id]) :: id in store)
    && (forall id | id in libs && Bare(libs[id]) :: libs[id].docs == map[])
  }

  /** The projected state and the actual stores are equal. */
  ghost predicate Agrees(s: State, store: Store) {
    Stocked(s) && Matches(s.libs, store)
  }

  /** What a resume of everything pending would make equal. */
  ghost predicate AgreesOnceResumed(s: State, store: Store) {
    |s.pending| <= 1 && Agrees(s, ExecCrawls(store, s.pending))
  }

  /** Resuming a killed crawl stores what the crawl run at once would have. */
  lemma ResumeCompletes(store: Store, c: Crawl, kept: set<nat>)
    ensures ExecCrawl(ExecKilled(store, c, kept), c) == ExecCrawl(store, c)
  {
    hide Landed;
    var landed := Landed(c.pages);
    var part := map k | k in landed && k in kept :: landed[k];
    var pages := ShelfOf(store, c.job.lib).pages;
    assert pages + part + landed == pages + landed;
  }

  /* ---- the document identities still to be filled in ---- */

  datatype Fill = NoFill | FillOf(id: LibId, key: nat, result: Result)

  function Filled(libs: map<LibId, Library>, f: Fill): map<LibId, Library> {
    if f.FillOf? && f.id in libs && f.key in libs[f.id].docs then
      var lib := libs[f.id];
      var doc := lib.docs[f.key].(documentId := f.result.documentId, versionId := f.result.versionId, chunks := f.result.chunks);
      libs[f.id := lib.(docs := lib.docs[f.key := doc])]
    else libs
  }

  /** The fill a plan's operations ask for: its document is the first of them. */
  function FillFor(ops: seq<Op>, ch: Choices): Fill {
    if ops != [] && ops[0].DocumentOp? then FillOf(ops[0].lib, ops[0].key, OpResult(ops[0], 0, ch)) else NoFill
  }

  lemma PublishedAgrees(lib: Library, shelf: Shelf, key: nat, version: nat, d: nat, v: nat, n: nat)
    requires LibAgrees(lib, shelf)
    requires if key in lib.docs then lib.docs[key].documentId == Some(d) else d !in shelf.docs
    ensures LibAgrees(lib.(docs := lib.docs[key := Doc(version, Some(d), Some(v), Some(n))]),
                      shelf.(docs := shelf.docs[d := DocRow(key, version, v, n)]))
  {
    var docs := lib.docs[key := Doc(version, Some(d), Some(v), Some(n))];
    var rows := shelf.docs[d := DocRow(key, version, v, n)];
    forall k | k in docs ensures RowOf(rows, k, docs[k]) {
      if k != key {
        assert RowOf(shelf.docs, k, lib.docs[k]);
        assert key in lib.docs ==> RowOf(shelf.docs, key, lib.docs[key]);
        assert lib.docs[k].documentId != Some(d);
      }
    }
    forall e | e in rows ensures KnownDocument(docs, e, rows[e]) {
      if e != d {
        assert KnownDocument(lib.docs, e, shelf.docs[e]);
      }
    }
  }

  lemma MatchesUpdate(libs: map<LibId, Library>, store: Store, id: LibId, lib: Library, shelf: Shelf)
    requires Matches(libs, store) && LibAgrees(lib, shelf) && !Bare(lib)
    ensures Matches(libs[id := lib], store[id := shelf])
  {
    hide LibAgrees, Bare;
  }

  lemma MatchesDelete(libs: map<LibId, Library>, store: Store, id: LibId)
    requires Matches(libs, store)
    ensures Matches(libs - {id}, store - {id})
  {
    hide LibAgrees, Bare;
  }

  /** The library a publication leaves, once the child's identities are in. */
  function PublishedLib(lib: Library, key: nat, op: Op, ch: Choices): Library
    requires op.DocumentOp?
  {
    var doc := Doc(op.version, Some(DocumentIdOf(op, 0, ch)), Some(ch.versionId(0)), Some(ch.chunks(0)));
    lib.(docs := lib.docs[key := doc], nextDoc := if key == lib.nextDoc then lib.nextDoc + 1 else lib.nextDoc)
  }

  lemma FilledPublished(s: State, id: LibId, key: nat, ch: Choices)
    requires id in s.libs
    ensures var (t, ops) := PublishIn(s, id, key);
            && |ops| == 1 && ops[0].DocumentOp? && ops[0].lib == id && ops[0].key == key
            && ops[0].documentId == (if key in s.libs[id].docs then s.libs[id].docs[key].documentId else None)
            && Filled(t.libs, FillFor(ops, ch)) == s.libs[id := PublishedLib(s.libs[id], key, ops[0], ch)]
  {
    var (t, ops) := PublishIn(s, id, key);
    var filled := Filled(t.libs, FillFor(ops, ch));
    var lib := PublishedLib(s.libs[id], key, ops[0], ch);
    assert filled[id].docs == lib.docs;
    assert filled[id] == lib;
    assert filled == s.libs[id := lib];
  }

  /** It agrees with the shelf the publication leaves. */
  lemma PublishedLibAgrees(lib: Library, shelf: Shelf, op: Op, ch: Choices)
    requires LibAgrees(lib, shelf) && (forall i: nat :: ch.newDocument(i) !in shelf.docs) && op.DocumentOp?
    requires op.documentId == if op.key in lib.docs then lib.docs[op.key].documentId else None
    ensures LibAgrees(PublishedLib(lib, op.key, op, ch),
                      shelf.(docs := shelf.docs[DocumentIdOf(op, 0, ch) := DocRow(op.key, op.version, ch.versionId(0), ch.chunks(0))]))
  {
    if op.key in lib.docs {
      assert RowOf(shelf.docs, op.key, lib.docs[op.key]);
    }
    var d := DocumentIdOf(op, 0, ch);
    PublishedAgrees(lib, shelf, op.key, op.version, d, ch.versionId(0), ch.chunks(0));
    hide LibAgrees;
    var grown := lib.(docs := lib.docs[op.key := Doc(op.version, Some(d), Some(ch.versionId(0)), Some(ch.chunks(0)))]);
    MatchesHeld(grown, PublishedLib(lib, op.key, op, ch),
                shelf.(docs := shelf.docs[d := DocRow(op.key, op.version, ch.versionId(0), ch.chunks(0))]));
  }

  lemma LiveShelf(s: State, store: Store, id: LibId, ch: Choices)
    requires id in s.libs && Stocked(s) && Matches(s.libs, store) && Fresh(store, ch)
    ensures !Bare(s.libs[id]) && id in store && LibAgrees(s.libs[id], store[id])
    ensures forall i: nat :: ch.newDocument(i) !in store[id].docs
  {
    hide LibAgrees, Bare;
  }

  lemma PublishMatches(s: State, store: Store, id: LibId, key: nat, ch: Choices)
    requires id in s.libs && Stocked(s) && Matches(s.libs, store) && Fresh(store, ch)
    ensures var (t, ops) := PublishIn(s, id, key);
            Matches(Filled(t.libs, FillFor(ops, ch)), ExecOp(store, ops[0], 0, ch))
  {
    LiveShelf(s, store, id, ch);
    FilledPublished(s, id, key, ch);
    var op := PublishIn(s, id, key).1[0];
    hide LibAgrees, Matches, Stocked, Fresh, PublishIn, Filled, FillFor;
    PublishedLibAgrees(s.libs[id], store[id], op, ch);
    MatchesUpdate(s.libs, store, id, PublishedLib(s.libs[id], key, op, ch), ExecOp(store, op, 0, ch)[id]);
  }

  lemma MatchesHeld(lib: Library, same: Library, shelf: Shelf)
    requires LibAgrees(lib, shelf) && same.stored == lib.stored && same.docs == lib.docs
    ensures LibAgrees(same, shelf)
  {
  }

  lemma FilledDelete(libs: map<LibId, Library>, f: Fill, id: LibId)
    ensures Filled(libs - {id}, f) == Filled(libs, f) - {id}
  {
    if f.FillOf? && f.id in libs && f.id != id {
      assert f.id in libs - {id};
      assert (libs - {id})[f.id] == libs[f.id];
    }
  }

  predicate SameHeld(a: map<LibId, Library>, b: map<LibId, Library>) {
    a.Keys == b.Keys && forall x | x in a :: a[x].stored == b[x].stored && a[x].docs == b[x].docs
  }

  lemma SameHeldMatches(a: map<LibId, Library>, b: map<LibId, Library>, store: Store)
    requires SameHeld(a, b) && Matches(a, store)
    ensures Matches(b, store)
  {
    forall x | x in store ensures LibAgrees(b[x], store[x]) {
      MatchesHeld(a[x], b[x], store[x]);
    }
  }

  /** Only the site of one library changed. */
  lemma FilledSurveyed(libs: map<LibId, Library>, store: Store, f: Fill, id: LibId, lib: Library)
    requires id in libs && Matches(Filled(libs, f), store)
    requires lib.stored == libs[id].stored && lib.docs == libs[id].docs
    ensures Matches(Filled(libs[id := lib], f), store)
  {
    hide Matches;
    assert SameHeld(Filled(libs, f), Filled(libs[id := lib], f));
    SameHeldMatches(Filled(libs, f), Filled(libs[id := lib], f), store);
  }

  lemma FilledCreate(libs: map<LibId, Library>, store: Store, f: Fill, id: LibId, lib: Library)
    requires id !in libs && Matches(Filled(libs, f), store)
    requires Bare(lib) && lib.docs == map[]
    ensures Matches(Filled(libs[id := lib], f), store)
  {
    hide LibAgrees, Bare;
    assert Filled(libs[id := lib], f) == Filled(libs, f)[id := lib];
  }

  /** Filling a document in and applying a crawl commute. */
  lemma FilledApply(s: State, f: Fill, c: Crawl)
    requires c.job.lib in s.libs
    ensures c.job.lib in Filled(s.libs, f)
    ensures var before := Filled(s.libs, f);
            Filled(ApplyCrawl(s, c).libs, f) == before[c.job.lib := Crawled(before[c.job.lib], c)]
    ensures Filled(s.libs, f)[c.job.lib].site == s.libs[c.job.lib].site
  {
    hide Landed, Superseding, Last;
    var id := c.job.lib;
    var before := Filled(s.libs, f);
    var after := Filled(ApplyCrawl(s, c).libs, f);
    assert after.Keys == before.Keys;
    assert after[id] == Crawled(before[id], c);
  }

  lemma CrawledAgrees(libs: map<LibId, Library>, store: Store, c: Crawl)
    requires c.job.lib in libs && Matches(libs, store)
    ensures LibAgrees(Crawled(libs[c.job.lib], c), ExecCrawl(store, c)[c.job.lib])
  {
    hide Landed;
    var lib := libs[c.job.lib];
    if Bare(lib) {
      EmptyAgrees(lib);
    }
  }

  lemma FilledCrawl(s: State, store: Store, f: Fill, c: Crawl)
    requires c.job.lib in s.libs && CrawlOf(s.libs[c.job.lib], c) && Matches(Filled(s.libs, f), store)
    ensures Matches(Filled(ApplyCrawl(s, c).libs, f), ExecCrawl(store, c))
  {
    hide Landed, Matches, CrawlOf, LibAgrees, Filled, ApplyCrawl;
    var id := c.job.lib;
    var before := Filled(s.libs, f);
    FilledApply(s, f, c);
    SameSite(s.libs[id], before[id], c);
    CrawledStocks(before[id], c);
    CrawledAgrees(before, store, c);
    MatchesUpdate(before, store, id, Crawled(before[id], c), ExecCrawl(store, c)[id]);
  }

  lemma SameSite(lib: Library, same: Library, c: Crawl)
    requires CrawlOf(lib, c) && same.site == lib.site
    ensures CrawlOf(same, c)
  {
    forall i | 0 <= i < |c.pages| ensures PageOf(same, c.pages[i]) {
      assert PageOf(lib, c.pages[i]);
    }
  }

  lemma EmptyAgrees(lib: Library)
    requires Bare(lib) && lib.docs == map[]
    ensures LibAgrees(lib, Shelf(map[], map[]))
  {
    assert lib.stored == map[];
  }

  /* ---- one cycle ---- */

  lemma {:induction false} ExecPrefix(store: Store, ops: seq<Op>, more: seq<Op>, n: nat, ch: Choices)
    requires n <= |ops|
    ensures ExecOps(store, ops + more, n, ch) == ExecOps(store, ops, n, ch)
  {
    hide ExecOp;
    if n > 0 {
      ExecPrefix(store, ops, more, n - 1, ch);
      assert (ops + more)[n - 1] == ops[n - 1];
    }
  }

  lemma {:induction false} ExecThenCrawls(store: Store, ops: seq<Op>, crawls: seq<Crawl>, n: nat, ch: Choices)
    requires n <= |crawls|
    ensures ExecOps(store, ops + CrawlOps(crawls), |ops| + n, ch)
            == ExecCrawls(ExecOps(store, ops, |ops|, ch), crawls[..n])
  {
    var all := ops + CrawlOps(crawls);
    if n == 0 {
      ExecPrefix(store, ops, CrawlOps(crawls), |ops|, ch);
    } else {
      ExecThenCrawls(store, ops, crawls, n - 1, ch);
      hide ExecCrawl;
      assert all[|ops| + n - 1] == CrawlOp(crawls[n - 1]);
      assert crawls[..n][..n - 1] == crawls[..n - 1] && crawls[..n][n - 1] == crawls[n - 1];
    }
  }

  lemma EarlyStagesMatch(args: Args, cycle: nat, s: State, store: Store, d: Draws, ch: Choices)
    requires StateOk(args, s) && Agrees(s, store) && Fair(args, d) && Fresh(store, ch)
    ensures var (s1, docs) := StageDocument(cycle, s, d);
            var (s2, deletes) := StageDelete(cycle, s1, d);
            Matches(Filled(s2.libs, FillFor(docs, ch)), ExecOps(store, docs + deletes, |docs + deletes|, ch))
  {
    hide StateOk, Matches, Filled, PublishIn, Fresh;
    var (s1, docs) := StageDocument(cycle, s, d);
    var f := FillFor(docs, ch);
    if DocumentDue(cycle, s, d) && d.docLib(s.libs.Keys) in s.libs {
      var id := d.docLib(s.libs.Keys);
      PublishMatches(s, store, id, DocumentKey(s.libs[id], d), ch);
      PublishesOne(s, id, DocumentKey(s.libs[id], d));
      assert ExecOps(store, docs, 0, ch) == store;
      assert ExecOps(store, docs, 1, ch) == ExecOp(store, docs[0], 0, ch);
    } else {
      NothingToFill(s.libs);
    }
    assert Matches(Filled(s1.libs, f), ExecOps(store, docs, |docs|, ch));
    var (s2, deletes) := StageDelete(cycle, s1, d);
    if deletes == [] {
      assert docs + deletes == docs;
    } else {
      var id := d.deleteLib(s1.libs.Keys);
      FilledDelete(s1.libs, f, id);
      MatchesDelete(Filled(s1.libs, f), ExecOps(store, docs, |docs|, ch), id);
      ExecPrefix(store, docs, deletes, |docs|, ch);
      hide GoneOf;
      assert (docs + deletes)[|docs|] == DeleteOp(id);
    }
  }

  lemma PublishesOne(s: State, id: LibId, key: nat)
    requires id in s.libs
    ensures var ops := PublishIn(s, id, key).1; |ops| == 1 && ops[0].DocumentOp? && ops[0].lib == id && ops[0].key == key
  {
  }

  lemma NothingToFill(libs: map<LibId, Library>)
    ensures Filled(libs, NoFill) == libs
  {
  }

  lemma RefreshMatches(args: Args, cycle: nat, s: State, store: Store, d: Draws, f: Fill)
    requires StateOk(args, s) && Matches(Filled(s.libs, f), store)
    ensures Matches(Filled(StageRefresh(cycle, s, d).0.libs, f), store)
  {
    hide Matches, Filled, PageSpecs;
    var id := d.refreshLib(s.libs.Keys);
    if RefreshDue(cycle, s, d) && id in s.libs {
      SurveyedOk(s.libs[id], Refresh, d.refresh);
      FilledSurveyed(s.libs, store, f, id, Surveyed(s.libs[id], Refresh, d.refresh));
    }
  }

  lemma {:induction false} CreateMatches(args: Args, cycle: nat, s: State, store: Store, d: Draws, wanted: nat, f: Fill)
    requires NamesBelow(s) && Matches(Filled(s.libs, f), store)
    ensures var t := StageCreate(args, cycle, s, d, wanted).0;
            NamesBelow(t) && Matches(Filled(t.libs, f), store)
  {
    hide Matches, Filled, PageSpecs, NewLibrary, Bare;
    if wanted > 0 {
      CreateMatches(args, cycle, s, store, d, wanted - 1, f);
      var t := StageCreate(args, cycle, s, d, wanted - 1).0;
      if |t.libs| < args.libraries {
        NewIsBare(args);
        FilledCreate(t.libs, store, f, LibId(cycle, t.nextLib), NewLibrary(args));
      }
    }
  }

  lemma NewIsBare(args: Args)
    ensures Bare(NewLibrary(args)) && NewLibrary(args).docs == map[]
  {
  }

  /** A new library's number has not been given out. */
  ghost predicate NamesBelow(s: State) {
    forall id | id in s.libs :: id.number < s.nextLib
  }

  lemma {:induction false} CrawlsMatch(args: Args, s: State, store: Store, f: Fill, crawls: seq<Crawl>, n: nat)
    requires StateOk(args, s) && CrawlsOk(s, crawls) && n <= |crawls| && Matches(Filled(s.libs, f), store)
    ensures Matches(Filled(ApplyCrawls(s, crawls[..n]).libs, f), ExecCrawls(store, crawls[..n]))
  {
    hide StateOk, Matches, Filled, ApplyCrawl, ExecCrawl, CrawlOf, Bare;
    if n > 0 {
      CrawlsMatch(args, s, store, f, crawls, n - 1);
      ApplyCrawlsOk(args, s, crawls, n - 1);
      var t := ApplyCrawls(s, crawls[..n - 1]);
      var c := crawls[n - 1];
      assert crawls[..n][..n - 1] == crawls[..n - 1] && crawls[..n][n - 1] == c;
      assert c.job.lib in s.libs && CrawlOf(s.libs[c.job.lib], c);
      SameSite(s.libs[c.job.lib], t.libs[c.job.lib], c);
      FilledCrawl(t, ExecCrawls(store, crawls[..n - 1]), f, c);
    }
  }

  /** Everything a plan does, up to its last crawl: the state with the document
      filled in matches the stores the operations leave. */
  lemma StagesMatch(args: Args, cycle: nat, s: State, store: Store, d: Draws, ch: Choices)
    requires StateOk(args, s) && Agrees(s, store) && Fair(args, d) && args.pages >= 1 && Fresh(store, ch)
    ensures var (t, ops, crawls) := Stages(args, cycle, false, s, d);
            Matches(Filled(t.libs, FillFor(ops, ch)), ExecOps(store, ops, |ops|, ch))
  {
    hide StateOk, Matches, Filled, StageDocument, StageDelete, StageRefresh, StageCreate, Fair, Fresh, NamesBelow, FillFor;
    var s0 := StageSwitch(args, cycle, s);
    var (s1, docs) := StageDocument(cycle, s0, d);
    var (s2, deletes) := StageDelete(cycle, s1, d);
    var f := FillFor(docs, ch);
    SwitchOk(args, cycle, s);
    EarlyStagesOk(args, cycle, s, d);
    RefreshStageOk(args, cycle, s2, d);
    FillIsFirst(cycle, s0, d, ch);
    StateNamesBelow(args, StageRefresh(cycle, s2, d).0);
    EarlyStagesMatch(args, cycle, s0, store, d, ch);
    var ran := ExecOps(store, docs + deletes, |docs + deletes|, ch);
    RefreshMatches(args, cycle, s2, ran, d, f);
    CreateMatches(args, cycle, StageRefresh(cycle, s2, d).0, ran, d, Wanted(cycle, d), f);
  }

  lemma StateNamesBelow(args: Args, s: State)
    requires StateOk(args, s)
    ensures NamesBelow(s)
  {
  }

  /** Only the first operation of a plan publishes a document. */
  lemma FillIsFirst(cycle: nat, s: State, d: Draws, ch: Choices)
    ensures var (s1, docs) := StageDocument(cycle, s, d);
            FillFor(docs + StageDelete(cycle, s1, d).1, ch) == FillFor(docs, ch)
  {
    hide PublishIn, DeleteFrom;
    var (s1, docs) := StageDocument(cycle, s, d);
    if docs != [] {
      assert (docs + StageDelete(cycle, s1, d).1)[0] == docs[0];
    }
  }
}
