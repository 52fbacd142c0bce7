/** A cycle in which nothing is wrong: the child of SoakStore, searches that
    find exactly what the stores hold, and rows that are what they hold.  The
    parent then reports nothing (scripts/knowledge_soak.py, `_commit`,
    `check_facts` and the chunks of `check_stores` together). */
module SoakTruth {
  import opened SoakModel
  import opened SoakCommit
  import opened SoakOracle
  import opened SoakStore
  import SoakFacts
  import SoakRefinement
  import StoreCheck

  type Expected = (LibId, nat, nat) -> set<StoreCheck.Chunk>

  /** What a search for a planted answer says: every layer finds it when it is
      stored. */
  ghost function Answered(store: Store, f: Item): SoakFacts.Ask {
    var stored := SoakRefinement.Stored(store, f);
    SoakFacts.Ask(f.lib, stored, stored, if stored then SoakFacts.Found else SoakFacts.Missed(SoakFacts.NoVector))
  }

  /** What a search for an answer required absent says: whether its library is
      as it should be, and whether the answer is still found. */
  ghost function Sought(store: Store, g: Absent): SoakFacts.Refused {
    SoakFacts.Refused(g.deleted <==> g.item.lib in store, SoakRefinement.Stored(store, g.item))
  }

  /** Or the approximate index passed over a stored answer's vector, and the
      hybrid search may have dropped it then: a measurement, not a fault. */
  ghost predicate PassedOver(store: Store, f: Item, a: SoakFacts.Ask) {
    SoakRefinement.Stored(store, f) && a.lib == f.lib && a.keyword && a.meaning == SoakFacts.Missed(SoakFacts.PassedOver)
  }

  ghost predicate IsAnswer(plan: Plan, store: Store, a: SoakFacts.Ask) {
    exists f :: f in plan.ask && (a == Answered(store, f) || PassedOver(store, f, a))
  }

  ghost predicate IsSought(plan: Plan, store: Store, r: SoakFacts.Refused) {
    exists g :: g in plan.absent && r == Sought(store, g)
  }

  /** The child's report: the searches tell the truth, and the stores' other
      parts are in order. */
  ghost predicate Truthful(plan: Plan, store: Store, f: SoakFacts.Facts) {
    && (forall a | a in f.asked :: IsAnswer(plan, store, a))
    && (forall r | r in f.absent :: IsSought(plan, store, r))
    && f.collections <= store.Keys
    && !f.networkRefused && f.ftsOk && f.sweep == SoakFacts.Full
    && (forall id | id in f.vectors :: !SoakFacts.VectorsBad(f.vectors[id]))
    && f.journalRows <= SoakFacts.JOURNAL_MAX_JOBS && f.journalBytes <= SoakFacts.JOURNAL_MAX_BYTES
    && !f.running && !f.textLeaks && !f.documentLeaks
  }

  /** The rows are the stores', and none is left of another library. */
  ghost predicate RowsTrue(rows: seq<StoreCheck.Row>, store: Store, expected: Expected) {
    StoreCheck.Holds(rows, store, expected) && forall r | r in rows :: r.lib in store
  }

  /** Every version published has chunks. */
  ghost predicate Chunked(ch: Choices) {
    forall i: nat :: ch.chunks(i) > 0
  }

  lemma TruthIsPlain(plan: Plan, store: Store, f: SoakFacts.Facts)
    requires Truthful(plan, store, f) && store.Keys == plan.live
    requires forall i | i in plan.ask :: SoakRefinement.Stored(store, i)
    requires forall g | g in plan.absent :: !SoakRefinement.Stored(store, g.item) && (g.deleted <==> g.item.lib !in store)
    ensures !SoakFacts.Plain(plan.live, f) && SoakFacts.Blamed(f) == {}
  {
    hide SoakRefinement.Stored, SoakFacts.VectorsBad;
    forall a | a in f.asked ensures !SoakFacts.AskFails(a) && !(a.meaning.Missed? && a.meaning.miss.QueryFailed?) {
      assert IsAnswer(plan, store, a);
    }
    forall r | r in f.absent ensures !r.problem && !r.found {
      assert IsSought(plan, store, r);
    }
  }

  /* ---- damage is reported ---- */

  /** Every answer asked for was searched for in the stores, and every one
      required absent, and the report says truly what was found. */
  ghost predicate Searched(plan: Plan, store: Store, f: SoakFacts.Facts) {
    && (forall i | i in plan.ask :: exists a :: a in f.asked && (a == Answered(store, i) || PassedOver(store, i, a)))
    && (forall g | g in plan.absent :: Sought(store, g) in f.absent)
  }

  /** The stores hold what is asked for and nothing that must be absent, and
      the libraries that must be gone are. */
  ghost predicate Undamaged(plan: Plan, store: Store) {
    && (forall i | i in plan.ask :: SoakRefinement.Stored(store, i))
    && (forall g | g in plan.absent :: !SoakRefinement.Stored(store, g.item) && (g.deleted <==> g.item.lib !in store))
  }

  /** Whatever else the report says, damage to what was asked about is a
      violation: no read failure confines it. */
  lemma DamageIsReported(plan: Plan, live: set<LibId>, store: Store, f: SoakFacts.Facts, failedBefore: set<LibId>, tolerate: bool)
    requires Searched(plan, store, f) && !Undamaged(plan, store)
    ensures SoakFacts.Plain(live, f) && !SoakFacts.InOrder(live, f, failedBefore, tolerate)
  {
    hide SoakRefinement.Stored;
    hide SoakFacts.InOrder, SoakFacts.ReadFailures, SoakFacts.Confinable, SoakFacts.Blamed;
    SoakFacts.SilenceExactly(live, f, failedBefore, tolerate);
    if i :| i in plan.ask && !SoakRefinement.Stored(store, i) {
      var a :| a in f.asked && (a == Answered(store, i) || PassedOver(store, i, a));
      assert SoakFacts.AskFails(a);
    } else {
      var g :| g in plan.absent && (SoakRefinement.Stored(store, g.item) || !(g.deleted <==> g.item.lib !in store));
      assert Sought(store, g) in f.absent;
    }
  }

  /** So with the rest of the report in order, the searches are silent exactly
      when the stores are undamaged. */
  lemma SearchesDecide(plan: Plan, store: Store, f: SoakFacts.Facts)
    requires Truthful(plan, store, f) && Searched(plan, store, f) && store.Keys == plan.live
    ensures SoakFacts.InOrder(plan.live, f, {}, false) <==> Undamaged(plan, store)
  {
    hide SoakFacts.InOrder, SoakFacts.Plain, SoakFacts.Blamed, Truthful, Searched, SoakRefinement.Stored;
    if Undamaged(plan, store) {
      TruthIsPlain(plan, store, f);
      SoakFacts.SilenceExactly(plan.live, f, {}, false);
    } else {
      DamageIsReported(plan, plan.live, store, f, {}, false);
    }
  }

  /* ---- no document is published empty ---- */

  lemma OpChunks(store: Store, op: Op, i: nat, ch: Choices)
    requires StoreCheck.ChunksEverywhere(store) && Chunked(ch)
    ensures StoreCheck.ChunksEverywhere(ExecOp(store, op, i, ch))
  {
    hide Landed;
  }

  lemma PagesChunks(store: Store, id: LibId, pages: map<nat, nat>)
    requires StoreCheck.ChunksEverywhere(store)
    ensures StoreCheck.ChunksEverywhere(StorePages(store, id, pages))
  {
  }

  lemma {:induction false} OpsChunks(store: Store, ops: seq<Op>, n: nat, ch: Choices)
    requires StoreCheck.ChunksEverywhere(store) && Chunked(ch) && n <= |ops|
    ensures StoreCheck.ChunksEverywhere(ExecOps(store, ops, n, ch))
  {
    hide StoreCheck.ChunksEverywhere, ExecOp, Chunked;
    if n > 0 {
      OpsChunks(store, ops, n - 1, ch);
      OpChunks(ExecOps(store, ops, n - 1, ch), ops[n - 1], n - 1, ch);
    }
  }

  lemma {:induction false} CrawlsChunks(store: Store, crawls: seq<Crawl>)
    requires StoreCheck.ChunksEverywhere(store)
    ensures StoreCheck.ChunksEverywhere(ExecCrawls(store, crawls))
  {
    hide StoreCheck.ChunksEverywhere, StorePages, Landed;
    if crawls != [] {
      var c := crawls[|crawls| - 1];
      CrawlsChunks(store, crawls[..|crawls| - 1]);
      PagesChunks(ExecCrawls(store, crawls[..|crawls| - 1]), c.job.lib, Landed(c.pages));
    }
  }

  lemma LeavesChunks(plan: Plan, store: Store, ch: Choices)
    requires CrashInCrawl(plan) && StoreCheck.ChunksEverywhere(store) && Chunked(ch)
    ensures StoreCheck.ChunksEverywhere(Leaves(plan, store, ch))
  {
    hide StoreCheck.ChunksEverywhere, Chunked, StorePages, ExecOps, ExecCrawls, Landed;
    CrawlsChunks(store, plan.resume);
    var start := ExecCrawls(store, plan.resume);
    OpsChunks(start, plan.ops, Ran(plan, ch), ch);
    if Killed(plan, ch) {
      var c := plan.ops[plan.crash.value.opIndex].crawl;
      PagesChunks(ExecOps(start, plan.ops, Ran(plan, ch), ch), c.job.lib,
                  map k | k in Landed(c.pages) && k in ch.kept :: Landed(c.pages)[k]);
    }
  }

  /* ---- a true cycle ---- */

  /** What the child of one cycle did and told, when nothing is wrong.  A killed
      child tells nothing more than the lines it printed. */
  ghost predicate TrueTo(plan: Plan, store: Store, ch: Choices, lines: seq<Line>, facts: Option<SoakFacts.Facts>,
                         rows: seq<StoreCheck.Row>, after: Store, expected: Expected)
    requires CrashInCrawl(plan)
  {
    && Fresh(store, ch) && Chunked(ch)
    && after == Leaves(plan, store, ch) && lines == Printed(plan, ch)
    && (!Killed(plan, ch) ==> facts.Some? && Truthful(plan, after, facts.value) && RowsTrue(rows, after, expected))
  }

  lemma RowsAreClean(args: Args, s: State, store: Store, rows: seq<StoreCheck.Row>, expected: Expected)
    requires StateOk(args, s) && Agrees(s, store) && RowsTrue(rows, store, expected) && StoreCheck.ChunksEverywhere(store)
    ensures StoreCheck.RowsExact(rows, s, expected) && StoreCheck.Countable(s)
  {
    StoreCheck.CleanCheck(rows, s, store, expected);
    hide StoreCheck.Holds, StoreCheck.RowsExact, StoreCheck.Countable, StoreCheck.ChunksEverywhere, LibsOk, ReplacedOk, LibAgrees, Bare;
    forall r, i | r in rows && 0 <= i < |s.deleted| ensures r.lib != s.deleted[i].id {
      StoreCheck.LibOfStore(s, store, r.lib);
    }
  }

  /** From an agreeing state, a true cycle is taken back without a problem and
      agrees again; not killed, its searches and its rows are in order too. */
  lemma TrueCycle(args: Args, cycle: nat, final: bool, probe: set<LibId>, s: State, store: Store, d: Draws,
                  ch: Choices, lines: seq<Line>, facts: Option<SoakFacts.Facts>, rows: seq<StoreCheck.Row>,
                  after: Store, expected: Expected)
    requires StateOk(args, s) && Stocked(s) && AgreesOnceResumed(s, store) && Fair(args, d) && args.pages >= 1
    requires StoreCheck.ChunksEverywhere(store) && CrashInCrawl(Planned(args, cycle, final, probe, s, d).0)
    requires TrueTo(Planned(args, cycle, final, probe, s, d).0, store, ch, lines, facts, rows, after, expected)
    ensures var (plan, proj) := Planned(args, cycle, final, probe, s, d);
            var s' := Committed(plan, proj, lines, Killed(plan, ch));
            && Problems(plan, lines, Killed(plan, ch)) == []
            && AgreesOnceResumed(s', after) && StoreCheck.ChunksEverywhere(after)
            && (!Killed(plan, ch) ==>
                  && StoreCheck.RowsExact(rows, s', expected) && StoreCheck.Countable(s')
                  && facts.Some? && !SoakFacts.Plain(plan.live, facts.value) && SoakFacts.Blamed(facts.value) == {})
  {
    hide StateOk, Stocked, Fair, Fresh, Planned, Agrees, Problems, Printed, Committed, Leaves, Chunked, Truthful, RowsTrue;
    hide StoreCheck.ChunksEverywhere, StoreCheck.RowsExact, StoreCheck.Countable, SoakFacts.Plain, SoakFacts.Blamed;
    hide SoakRefinement.Stored, AgreesOnceResumed, Killed;
    var (plan, proj) := Planned(args, cycle, final, probe, s, d);
    var s' := Committed(plan, proj, lines, Killed(plan, ch));
    var step := SoakRefinement.Step(final, probe, d, ch);
    SoakRefinement.CycleRefines(args, cycle, final, probe, s, store, d, ch);
    LeavesChunks(plan, store, ch);
    if !Killed(plan, ch) {
      RowsAreClean(args, s', after, rows, expected);
      SoakRefinement.AskedAreStored(args, cycle, s, store, step);
      SoakRefinement.CycleFacts(args, cycle, s, store, step);
      LivePlanned(args, cycle, final, probe, s, d);
      TruthIsPlain(plan, after, facts.value);
    }
  }

  lemma LivePlanned(args: Args, cycle: nat, final: bool, probe: set<LibId>, s: State, d: Draws)
    ensures var (plan, proj) := Planned(args, cycle, final, probe, s, d); plan.live == proj.libs.Keys
  {
    hide Stages, ApplyCrawls, CrashDue, Facts, GoneFacts, Probed, CrawlOps;
  }

  /* ---- there are such rows for any stores ---- */

  function PageRow(id: LibId, k: nat, c: StoreCheck.Chunk): StoreCheck.Row {
    StoreCheck.Row(id, k, c, None, None, true, false)
  }

  ghost function ChunkRows(id: LibId, k: nat, chunks: set<StoreCheck.Chunk>): (rows: seq<StoreCheck.Row>)
    ensures forall r :: r in rows <==> r.chunk in chunks && r == PageRow(id, k, r.chunk)
  {
    if chunks == {} then [] else var c :| c in chunks; ChunkRows(id, k, chunks - {c}) + [PageRow(id, k, c)]
  }

  predicate PagesOf(store: Store, keys: set<StoreCheck.Key>) {
    forall key | key in keys :: key.0 in store && key.1 in store[key.0].pages
  }

  predicate DocumentsOf(store: Store, keys: set<StoreCheck.Key>) {
    forall key | key in keys :: key.0 in store && key.1 in store[key.0].docs
  }

  ghost function PageRows(store: Store, keys: set<StoreCheck.Key>, expected: Expected): (rows: seq<StoreCheck.Row>)
    requires PagesOf(store, keys)
    ensures forall r :: r in rows <==>
              && (r.lib, r.url) in keys && r == PageRow(r.lib, r.url, r.chunk)
              && r.chunk in expected(r.lib, r.url, store[r.lib].pages[r.url])
  {
    if keys == {} then []
    else
      var key :| key in keys;
      PageRows(store, keys - {key}, expected) + ChunkRows(key.0, key.1, expected(key.0, key.1, store[key.0].pages[key.1]))
  }

  ghost function DocumentRow(id: LibId, d: nat, version: nat): StoreCheck.Row {
    StoreCheck.Row(id, 0, StoreCheck.Chunk(0, 0), Some(d), Some(version), true, false)
  }

  ghost function Copies(id: LibId, d: nat, version: nat, n: nat): (rows: seq<StoreCheck.Row>)
    ensures forall r | r in rows :: r == DocumentRow(id, d, version)
  {
    if n == 0 then [] else Copies(id, d, version, n - 1) + [DocumentRow(id, d, version)]
  }

  ghost function DocumentRows(store: Store, keys: set<StoreCheck.Key>): (rows: seq<StoreCheck.Row>)
    requires DocumentsOf(store, keys)
    ensures forall r | r in rows :: r.document.Some? && (r.lib, r.document.value) in keys
  {
    if keys == {} then []
    else
      var key :| key in keys;
      var doc := store[key.0].docs[key.1];
      DocumentRows(store, keys - {key}) + Copies(key.0, key.1, doc.versionId, doc.chunks)
  }

  lemma {:induction false} CopiesAtVersion(id: LibId, d: nat, row: DocRow, n: nat)
    ensures var versions := StoreCheck.RowVersions(Copies(id, d, row.versionId, n), id, d);
            |versions| == n && forall i | 0 <= i < n :: versions[i] == Some(row.versionId)
  {
    if n > 0 {
      CopiesAtVersion(id, d, row, n - 1);
      var rows := Copies(id, d, row.versionId, n);
      assert rows[..|rows| - 1] == Copies(id, d, row.versionId, n - 1);
    }
  }

  lemma {:induction false} DocumentRowsAtVersion(store: Store, keys: set<StoreCheck.Key>, id: LibId, d: nat)
    requires DocumentsOf(store, keys) && (id, d) in keys
    ensures StoreCheck.RowsAtVersion(StoreCheck.RowVersions(DocumentRows(store, keys), id, d), store[id].docs[d])
  {
    hide StoreCheck.RowVersions, Copies;
    var key :| key in keys && DocumentRows(store, keys)
               == DocumentRows(store, keys - {key})
                  + Copies(key.0, key.1, store[key.0].docs[key.1].versionId, store[key.0].docs[key.1].chunks);
    var before, doc := DocumentRows(store, keys - {key}), store[key.0].docs[key.1];
    var more := Copies(key.0, key.1, doc.versionId, doc.chunks);
    StoreCheck.VersionsAppend(before, more, id, d);
    if key == (id, d) {
      StoreCheck.VersionsNone(before, id, d);
      CopiesAtVersion(id, d, doc, doc.chunks);
    } else {
      StoreCheck.VersionsNone(more, id, d);
      DocumentRowsAtVersion(store, keys - {key}, id, d);
    }
  }

  /** Whatever the stores hold, some rows are exactly that. */
  lemma TrueRows(store: Store, expected: Expected) returns (rows: seq<StoreCheck.Row>)
    ensures RowsTrue(rows, store, expected)
  {
    hide StoreCheck.RowVersions, StoreCheck.PageChunks, StoreCheck.RowsAtVersion, PageRows, DocumentRows;
    var pageKeys := set id, k | id in store && k in store[id].pages :: (id, k);
    var documentKeys := set id, d | id in store && d in store[id].docs :: (id, d);
    var pages, documents := PageRows(store, pageKeys, expected), DocumentRows(store, documentKeys);
    rows := pages + documents;
    forall id, k | id in store && k in store[id].pages
      ensures StoreCheck.PageChunks(rows, id, k) == expected(id, k, store[id].pages[k]) {
      assert (id, k) in pageKeys;
      PagesAre(store, pageKeys, rows, documents, expected, id, k);
    }
    forall id, d | id in store && d in store[id].docs
      ensures StoreCheck.RowsAtVersion(StoreCheck.RowVersions(rows, id, d), store[id].docs[d]) {
      assert (id, d) in documentKeys;
      DocumentsAre(store, documentKeys, pages, rows, id, d);
    }
  }

  lemma DocumentsAre(store: Store, keys: set<StoreCheck.Key>, pages: seq<StoreCheck.Row>, rows: seq<StoreCheck.Row>, id: LibId, d: nat)
    requires DocumentsOf(store, keys) && (id, d) in keys && rows == pages + DocumentRows(store, keys)
    requires forall r | r in pages :: r.document.None?
    ensures StoreCheck.RowsAtVersion(StoreCheck.RowVersions(rows, id, d), store[id].docs[d])
  {
    hide StoreCheck.RowVersions, StoreCheck.RowsAtVersion, DocumentRows;
    StoreCheck.VersionsAppend(pages, DocumentRows(store, keys), id, d);
    StoreCheck.VersionsNone(pages, id, d);
    DocumentRowsAtVersion(store, keys, id, d);
    assert [] + StoreCheck.RowVersions(DocumentRows(store, keys), id, d) == StoreCheck.RowVersions(DocumentRows(store, keys), id, d);
  }

  lemma PagesAre(store: Store, keys: set<StoreCheck.Key>, rows: seq<StoreCheck.Row>,
                 documents: seq<StoreCheck.Row>, expected: Expected, id: LibId, k: nat)
    requires PagesOf(store, keys) && (id, k) in keys && rows == PageRows(store, keys, expected) + documents
    requires forall r | r in documents :: r.document.Some?
    ensures StoreCheck.PageChunks(rows, id, k) == expected(id, k, store[id].pages[k])
  {
    forall c | c in expected(id, k, store[id].pages[k]) ensures c in StoreCheck.PageChunks(rows, id, k) {
      assert PageRow(id, k, c) in PageRows(store, keys, expected);
      assert PageRow(id, k, c) in rows;
    }
  }
}
