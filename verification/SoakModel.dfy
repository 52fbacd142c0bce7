/** The values the knowledge soak's parent plans with, and what one cycle does
    to them: scripts/knowledge_soak.py, the section "soak planning and the
    expected state".  A random draw is an argument, so a lemma that holds for
    every argument holds for every run of the random generator. */
module SoakModel {

  datatype Option<+T> = None | Some(value: T)

  /** A library's name, `kbsoak-<cycle>-<number>-<language>`; the language is
      the number modulo three. */
  datatype LibId = LibId(cycle: nat, number: nat)

  /** A page of a library, or a document in it, at one version: the identity
      of one planted fact. */
  datatype Item =
    | Page(lib: LibId, key: nat, version: nat)
    | Document(lib: LibId, key: nat, version: nat)

  /** What only the child knows (the identities and the chunk count) is filled
      in by `Commit`. */
  datatype Doc = Doc(version: nat, documentId: Option<nat>, versionId: Option<nat>, chunks: Option<nat>)

  datatype Library = Library(
    site: map<nat, nat>, stored: map<nat, nat>, docs: map<nat, Doc>, nextPage: nat, nextDoc: nat)

  datatype Gone = Gone(id: LibId, stored: map<nat, nat>, docs: map<nat, nat>, documents: seq<Option<nat>>)

  datatype Kind = Site | Refresh
  datatype Job = Job(lib: LibId, cycle: nat, kind: Kind)
  datatype PageSpec = PageSpec(no: nat, version: nat, fail: bool)
  datatype Crawl = Crawl(job: Job, pages: seq<PageSpec>)

  datatype Op =
    | DocumentOp(lib: LibId, key: nat, version: nat, documentId: Option<nat>)
    | DeleteOp(lib: LibId)
    | CrawlOp(crawl: Crawl)

  datatype Crash = Crash(opIndex: nat, pageIndex: nat)

  /** An answer no search may return, and whether its library was deleted. */
  datatype Absent = Absent(item: Item, deleted: bool)

  datatype Plan = Plan(
    cycle: nat, resume: seq<Crawl>, ops: seq<Op>, crash: Option<Crash>, live: set<LibId>,
    ask: set<Item>, absent: set<Absent>)

  datatype Counts = Counts(
    switches: nat, documents: nat, deletes: nat, refreshes: nat, crawls: nat, crashes: nat)

  /** `deleted` is a dictionary in insertion order: a sequence here. */
  datatype State = State(
    libs: map<LibId, Library>, deleted: seq<Gone>, replaced: seq<Item>, pending: seq<Crawl>,
    counts: Counts, nextLib: nat)

  datatype Args = Args(libraries: nat, pages: nat, questions: nat, switchEvery: nat, crashes: bool)

  const STAGE_BUDGET: nat := 5
  const KEEP_REPLACED: nat := 200
  const KEEP_DELETED: nat := 20
  const ASK_REPLACED: nat := 60
  const ASK_DELETED: nat := 5

  const NO_COUNTS := Counts(0, 0, 0, 0, 0, 0)
  const NEW_STATE := State(map[], [], [], [], NO_COUNTS, 0)

  /* ---- the draws ---- */

  datatype Roll = Keep | Change | Remove
  type Few = n: nat | n <= 2

  datatype CrawlDraw = CrawlDraw(roll: nat -> Roll, added: Few, fails: nat -> bool)

  datatype Draws = Draws(
    docRoll: bool, docLib: set<LibId> -> LibId, docReuse: bool, docKey: set<nat> -> nat,
    deleteRoll: bool, deleteLib: set<LibId> -> LibId,
    refreshRoll: bool, refreshLib: set<LibId> -> LibId, refresh: CrawlDraw,
    createRoll: bool, create: nat -> CrawlDraw,
    crashRoll: bool, crashPage: nat,
    ask: set<Item> -> set<Item>, probe: set<Item> -> Item, absent: set<Absent> -> set<Absent>)

  /** A choice is made from what it is offered. */
  ghost predicate Chooses<T(!new)>(f: set<T> -> T) {
    forall s: set<T> | s != {} :: f(s) in s
  }

  /** A sample of at most `n` distinct members, as many as there are. */
  ghost predicate Samples<T(!new)>(f: set<T> -> set<T>, n: nat) {
    forall s: set<T> :: f(s) <= s && |f(s)| == Min(n, |s|)
  }

  ghost predicate Fair(args: Args, d: Draws) {
    && Chooses(d.docLib) && Chooses(d.docKey) && Chooses(d.deleteLib) && Chooses(d.refreshLib)
    && Chooses(d.probe) && Samples(d.ask, args.questions) && Samples(d.absent, args.questions)
  }

  function Min(a: nat, b: nat): nat {
    if a < b then a else b
  }

  /** The last `n` elements, or all of them: Python's `[-n:]`. */
  function Last<T>(s: seq<T>, n: nat): seq<T> {
    if |s| <= n then s else s[|s| - n..]
  }

  /** The keys below `bound` that are in `s`, in increasing order. */
  function SortedKeys(s: set<nat>, bound: nat): (keys: seq<nat>)
    ensures forall k :: k in keys <==> k in s && k < bound
    ensures forall i, j :: 0 <= i < j < |keys| ==> keys[i] < keys[j]
  {
    if bound == 0 then []
    else
      var keys := SortedKeys(s, bound - 1);
      assert forall i | 0 <= i < |keys| :: keys[i] in keys;
      keys + (if bound - 1 in s then [bound - 1] else [])
  }

  /* ---- a crawl ---- */

  function RefreshedPages(site: map<nat, nat>, roll: nat -> Roll): map<nat, nat> {
    map k | k in site && roll(k) != Remove :: if roll(k) == Change then site[k] + 1 else site[k]
  }

  /** `n` pages numbered from `first`, each at version 1. */
  function NewPages(first: nat, n: nat): (pages: map<nat, nat>)
    ensures forall k :: k in pages <==> first <= k < first + n
    ensures forall k | k in pages :: pages[k] == 1
  {
    if n == 0 then map[] else NewPages(first, n - 1)[first + n - 1 := 1]
  }

  /** The library once its site is as this crawl will find it. */
  function Surveyed(lib: Library, kind: Kind, draw: CrawlDraw): Library {
    if kind == Site then lib
    else
      var kept := RefreshedPages(lib.site, draw.roll);
      var added := if kept == map[] && draw.added == 0 then 1 else draw.added;
      lib.(site := kept + NewPages(lib.nextPage, added), nextPage := lib.nextPage + added)
  }

  /** Page `k` of the surveyed site fails: it was drawn to, and it is not the
      one page spared when all of them were. */
  predicate PageFails(keys: seq<nat>, fails: nat -> bool, k: nat) {
    fails(k) && !((forall x | x in keys :: fails(x)) && keys != [] && k == keys[0])
  }

  function PageSpecs(lib: Library, draw: CrawlDraw): (pages: seq<PageSpec>)
    ensures |pages| == |SortedKeys(lib.site.Keys, lib.nextPage)|
  {
    var keys := SortedKeys(lib.site.Keys, lib.nextPage);
    seq(|keys|, i requires 0 <= i < |keys| => PageSpec(keys[i], lib.site[keys[i]], PageFails(keys, draw.fails, keys[i])))
  }

  /** What a crawl that runs to its end leaves in the store, page by page. */
  function Landed(pages: seq<PageSpec>): map<nat, nat> {
    if pages == [] then map[]
    else
      var p := pages[|pages| - 1];
      var before := Landed(pages[..|pages| - 1]);
      if p.fail then before else before[p.no := p.version]
  }

  /** The versions the crawl's pages replace, oldest first. */
  function Superseding(lib: LibId, stored: map<nat, nat>, pages: seq<PageSpec>): seq<Item> {
    if pages == [] then []
    else
      var init := pages[..|pages| - 1];
      var p := pages[|pages| - 1];
      var now := stored + Landed(init);
      Superseding(lib, stored, init)
      + (if !p.fail && p.no in now && now[p.no] != p.version then [Page(lib, p.no, now[p.no])] else [])
  }

  function ApplyCrawl(s: State, c: Crawl): State {
    var id := c.job.lib;
    if id !in s.libs then s
    else
      var lib := s.libs[id];
      s.(libs := s.libs[id := lib.(stored := lib.stored + Landed(c.pages))],
         replaced := Last(s.replaced + Superseding(id, lib.stored, c.pages), KEEP_REPLACED))
  }

  function ApplyCrawls(s: State, crawls: seq<Crawl>): State {
    if crawls == [] then s
    else ApplyCrawl(ApplyCrawls(s, crawls[..|crawls| - 1]), crawls[|crawls| - 1])
  }

  /* ---- the stages of a cycle's plan ---- */

  predicate Forced(cycle: nat) {
    cycle <= STAGE_BUDGET
  }

  function StageSwitch(args: Args, cycle: nat, s: State): State {
    if (args.switchEvery != 0 && cycle % args.switchEvery == 0) || (cycle == STAGE_BUDGET && s.counts.switches == 0)
    then s.(counts := s.counts.(switches := s.counts.switches + 1)) else s
  }

  predicate DocumentDue(cycle: nat, s: State, d: Draws) {
    s.libs.Keys != {} && (d.docRoll || (Forced(cycle) && cycle >= 2 && s.counts.documents == 0))
  }

  /** A new version of document `key` in library `id`, the first when there
      is none. */
  function PublishIn(s: State, id: LibId, key: nat): (State, seq<Op>)
    requires id in s.libs
  {
    var lib := s.libs[id];
    var nextDoc := if key == lib.nextDoc then lib.nextDoc + 1 else lib.nextDoc;
    var was := if key in lib.docs then Some(lib.docs[key]) else None;
    var version := if was.Some? then was.value.version + 1 else 1;
    var known := if was.Some? then was.value.documentId else None;
    (s.(libs := s.libs[id := lib.(docs := lib.docs[key := Doc(version, known, None, None)], nextDoc := nextDoc)],
        replaced := s.replaced + (if was.Some? then [Document(id, key, was.value.version)] else []),
        counts := s.counts.(documents := s.counts.documents + 1)),
     [DocumentOp(id, key, version, known)])
  }

  function DocumentKey(lib: Library, d: Draws): nat {
    if lib.docs.Keys != {} && d.docReuse then d.docKey(lib.docs.Keys) else lib.nextDoc
  }

  function StageDocument(cycle: nat, s: State, d: Draws): (State, seq<Op>) {
    var id := d.docLib(s.libs.Keys);
    if DocumentDue(cycle, s, d) && id in s.libs then PublishIn(s, id, DocumentKey(s.libs[id], d)) else (s, [])
  }

  /** The document identities a library holds, in key order. */
  function HeldDocuments(lib: Library, upto: nat): seq<Option<nat>> {
    if upto == 0 then []
    else
      HeldDocuments(lib, upto - 1)
      + (if upto - 1 in lib.docs && lib.docs[upto - 1].documentId.Some? then [lib.docs[upto - 1].documentId] else [])
  }

  function GoneOf(id: LibId, lib: Library): Gone {
    Gone(id, lib.stored, map k | k in lib.docs :: lib.docs[k].version, HeldDocuments(lib, lib.nextDoc))
  }

  predicate DeleteDue(cycle: nat, s: State, d: Draws) {
    |s.libs.Keys| >= 2 && (d.deleteRoll || (Forced(cycle) && cycle >= 3 && s.counts.deletes == 0))
  }

  function DeleteFrom(s: State, id: LibId): State
    requires id in s.libs
  {
    s.(libs := s.libs - {id},
       deleted := Last(s.deleted + [GoneOf(id, s.libs[id])], KEEP_DELETED),
       counts := s.counts.(deletes := s.counts.deletes + 1))
  }

  function StageDelete(cycle: nat, s: State, d: Draws): (State, seq<Op>) {
    var id := d.deleteLib(s.libs.Keys);
    if DeleteDue(cycle, s, d) && id in s.libs then (DeleteFrom(s, id), [DeleteOp(id)]) else (s, [])
  }

  predicate RefreshDue(cycle: nat, s: State, d: Draws) {
    s.libs.Keys != {} && (d.refreshRoll || (Forced(cycle) && cycle >= 2 && s.counts.refreshes == 0))
  }

  function RefreshIn(s: State, id: LibId, draw: CrawlDraw): State
    requires id in s.libs
  {
    s.(libs := s.libs[id := Surveyed(s.libs[id], Refresh, draw)],
       counts := s.counts.(refreshes := s.counts.refreshes + 1))
  }

  function StageRefresh(cycle: nat, s: State, d: Draws): (State, seq<Crawl>) {
    var id := d.refreshLib(s.libs.Keys);
    if RefreshDue(cycle, s, d) && id in s.libs then
      var t := RefreshIn(s, id, d.refresh);
      (t, [Crawl(Job(id, cycle, Refresh), PageSpecs(t.libs[id], d.refresh))])
    else (s, [])
  }

  function NewLibrary(args: Args): Library {
    Library(NewPages(1, args.pages), map[], map[], args.pages + 1, 1)
  }

  function CreateIn(args: Args, cycle: nat, s: State): State {
    s.(libs := s.libs[LibId(cycle, s.nextLib) := NewLibrary(args)], nextLib := s.nextLib + 1,
       counts := s.counts.(crawls := s.counts.crawls + 1))
  }

  /** Up to `wanted` new libraries, as many as the bound allows. */
  function StageCreate(args: Args, cycle: nat, s: State, d: Draws, wanted: nat): (State, seq<Crawl>) {
    if wanted == 0 then (s, [])
    else
      var (t, crawls) := StageCreate(args, cycle, s, d, wanted - 1);
      if |t.libs| >= args.libraries then (t, crawls)
      else
        (CreateIn(args, cycle, t),
         crawls + [Crawl(Job(LibId(cycle, t.nextLib), cycle, Site), PageSpecs(NewLibrary(args), d.create(wanted - 1)))])
  }

  function Wanted(cycle: nat, d: Draws): nat {
    if cycle == 1 then 2 else if d.createRoll then 1 else 0
  }

  predicate CrashDue(args: Args, cycle: nat, final: bool, s: State, d: Draws, crawls: seq<Crawl>) {
    crawls != [] && args.crashes && !final
    && (d.crashRoll || (4 <= cycle <= STAGE_BUDGET && s.counts.crashes == 0))
  }

  /** Everything `_plan_cycle` decides before the crawls are applied: the
      state, the operations before the crawls, and the crawls. */
  function Stages(args: Args, cycle: nat, final: bool, s: State, d: Draws): (State, seq<Op>, seq<Crawl>) {
    if final then (s, [], [])
    else
      var s0 := StageSwitch(args, cycle, s);
      var (s1, docs) := StageDocument(cycle, s0, d);
      var (s2, deletes) := StageDelete(cycle, s1, d);
      var (s3, refreshes) := StageRefresh(cycle, s2, d);
      var (s4, sites) := StageCreate(args, cycle, s3, d, Wanted(cycle, d));
      (s4, docs + deletes, refreshes + sites)
  }

  function CrawlOps(crawls: seq<Crawl>): (ops: seq<Op>)
    ensures |ops| == |crawls| && forall i | 0 <= i < |ops| :: ops[i] == CrawlOp(crawls[i])
  {
    seq(|crawls|, i requires 0 <= i < |crawls| => CrawlOp(crawls[i]))
  }

  /** What a search must find: every stored page and document, as projected. */
  function Facts(s: State): set<Item> {
    (set id, k | id in s.libs && k in s.libs[id].stored :: Page(id, k, s.libs[id].stored[k]))
    + (set id, k | id in s.libs && k in s.libs[id].docs :: Document(id, k, s.libs[id].docs[k].version))
  }

  function FactsOf(s: State, id: LibId): set<Item> {
    set f | f in Facts(s) && f.lib == id
  }

  predicate Deleted(s: State, id: LibId) {
    exists i | 0 <= i < |s.deleted| :: s.deleted[i].id == id
  }

  /** What no search may find: the versions replaced last, and everything the
      libraries deleted last held. */
  function GoneFacts(s: State): set<Absent> {
    (set r | r in Last(s.replaced, ASK_REPLACED) && (r.lib in s.libs || Deleted(s, r.lib)) :: Absent(r, Deleted(s, r.lib)))
    + (set g, k | g in Last(s.deleted, ASK_DELETED) && k in g.stored :: Absent(Page(g.id, k, g.stored[k]), true))
    + (set g, k | g in Last(s.deleted, ASK_DELETED) && k in g.docs :: Absent(Document(g.id, k, g.docs[k]), true))
  }

  /** A probed library the sample passed over is asked about as well. */
  function Probed(s: State, ask: set<Item>, probe: set<LibId>, pick: set<Item> -> Item): set<Item> {
    set id | id in probe && id in s.libs && FactsOf(s, id) != {} && (forall f | f in ask :: f.lib != id)
      :: pick(FactsOf(s, id))
  }

  function Planned(args: Args, cycle: nat, final: bool, probe: set<LibId>, s: State, d: Draws): (Plan, State) {
    var (s4, ops, crawls) := Stages(args, cycle, final, s, d);
    var all := ops + CrawlOps(crawls);
    var s5 := ApplyCrawls(s4, crawls);
    var due := CrashDue(args, cycle, final, s5, d, crawls) && crawls[|crawls| - 1].pages != [];
    var crash := if due then Some(Crash(|all| - 1, d.crashPage % |crawls[|crawls| - 1].pages|)) else None;
    var s6 := if due then s5.(counts := s5.counts.(crashes := s5.counts.crashes + 1)) else s5;
    var sample := d.ask(Facts(s6));
    (Plan(cycle, s.pending, all, crash, s6.libs.Keys, sample + Probed(s6, sample, probe, d.probe), d.absent(GoneFacts(s6))),
     s6)
  }
}
