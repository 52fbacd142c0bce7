/** What a planned cycle projects, read off the plan's operations alone: what
    the stores will hold, what is remembered as replaced, and what a deleted
    library is remembered to have held (scripts/knowledge_soak.py,
    `_plan_cycle` and `_apply_crawl`). */
module SoakProjection {
  import opened SoakModel
  import opened SoakCommit
  import opened SoakOracle

  /** The same page or document, at whatever version. */
  predicate SameSlot(f: Item, g: Item) {
    f.Page? == g.Page? && f.lib == g.lib && f.key == g.key
  }

  /** A page that does not fail, or a document's new version. */
  predicate OpBrings(op: Op, f: Item) {
    match op
    case DocumentOp(id, key, version, _) => f == Document(id, key, version)
    case DeleteOp(_) => false
    case CrawlOp(c) => f.Page? && f.lib == c.job.lib && PageSpec(f.key, f.version, false) in c.pages
  }

  predicate Brings(ops: seq<Op>, f: Item) {
    exists op :: op in ops && OpBrings(op, f)
  }

  ghost predicate Overwrites(ops: seq<Op>, f: Item) {
    exists g :: Brings(ops, g) && SameSlot(f, g)
  }

  predicate Deletes(ops: seq<Op>, id: LibId) {
    DeleteOp(id) in ops
  }

  /** What is held once the operations have run, deletes aside. */
  ghost predicate HeldAfter(s: State, ops: seq<Op>, f: Item) {
    Brings(ops, f) || (f in Facts(s) && !Overwrites(ops, f))
  }

  /** What the operations replace by another version. */
  ghost predicate Replaces(s: State, ops: seq<Op>, f: Item) {
    f in Facts(s) && Overwrites(ops, f) && !Brings(ops, f)
  }

  ghost predicate Projects(s: State, ops: seq<Op>, t: State) {
    forall f :: f in Facts(t) <==> !Deletes(ops, f.lib) && HeldAfter(s, ops, f)
  }

  predicate NoRepeats(items: seq<Item>) {
    forall i, j | 0 <= i < j < |items| :: items[i] != items[j]
  }

  /** What was replaced, once each, is remembered last. */
  ghost predicate Remembers(s: State, ops: seq<Op>, t: State, more: seq<Item>) {
    && (forall f :: f in more <==> Replaces(s, ops, f)) && NoRepeats(more)
    && Last(t.replaced, KEEP_REPLACED) == Last(s.replaced + more, KEEP_REPLACED)
  }

  /** Operations may follow each other: the later ones touch no library the
      first deleted, and bring nothing they brought at another version. */
  ghost predicate MayFollow(a: seq<Op>, b: seq<Op>) {
    && (forall f | Brings(b, f) :: !Deletes(a, f.lib))
    && (forall f, g | Brings(a, f) && Brings(b, g) && SameSlot(f, g) :: f == g)
  }

  lemma BringsBoth(a: seq<Op>, b: seq<Op>)
    ensures forall f :: Brings(a + b, f) <==> Brings(a, f) || Brings(b, f)
    ensures forall f :: Overwrites(a + b, f) <==> Overwrites(a, f) || Overwrites(b, f)
    ensures forall id :: Deletes(a + b, id) <==> Deletes(a, id) || Deletes(b, id)
  {
    forall f ensures Brings(a + b, f) <==> Brings(a, f) || Brings(b, f) {
      if op :| op in a + b && OpBrings(op, f) {
        assert op in a || op in b;
      }
      if op :| op in a && OpBrings(op, f) {
        assert op in a + b;
      }
      if op :| op in b && OpBrings(op, f) {
        assert op in a + b;
      }
    }
  }

  lemma ProjectsBoth(s: State, t: State, u: State, a: seq<Op>, b: seq<Op>)
    requires Projects(s, a, t) && Projects(t, b, u) && MayFollow(a, b)
    ensures Projects(s, a + b, u)
  {
    hide Brings, Facts, SameSlot, Deletes;
    BringsBoth(a, b);
    forall f ensures f in Facts(u) <==> !Deletes(a + b, f.lib) && HeldAfter(s, a + b, f) {
      if Brings(a, f) && Overwrites(b, f) {
        var g :| Brings(b, g) && SameSlot(f, g);
        assert f == g;
      }
    }
  }

  lemma ReplacesBoth(s: State, t: State, a: seq<Op>, b: seq<Op>, f: Item)
    requires Projects(s, a, t) && MayFollow(a, b)
    ensures Replaces(s, a + b, f) <==> Replaces(s, a, f) || Replaces(t, b, f)
    ensures !(Replaces(s, a, f) && Replaces(t, b, f))
  {
    hide Brings, Facts, Deletes;
    BringsBoth(a, b);
    if Overwrites(b, f) {
      var g :| Brings(b, g) && SameSlot(f, g);
      assert !Deletes(a, f.lib);
      assert Brings(a, f) ==> f == g;
    }
    if Overwrites(a, f) && Brings(b, f) {
      var g :| Brings(a, g) && SameSlot(f, g);
      assert SameSlot(g, f);
    }
  }

  lemma LastAppend<T>(s: seq<T>, b: seq<T>, n: nat)
    ensures Last(s + b, n) == Last(Last(s, n) + b, n)
  {
    if |s| > n {
      assert s + b == s[..|s| - n] + (s[|s| - n..] + b);
    }
  }

  lemma LastOfLast<T>(s: seq<T>, t: seq<T>, a: seq<T>, b: seq<T>, n: nat)
    requires Last(t, n) == Last(s + a, n)
    ensures Last(t + b, n) == Last(s + (a + b), n)
  {
    LastAppend(t, b, n);
    LastAppend(s + a, b, n);
    assert s + (a + b) == (s + a) + b;
  }

  lemma RemembersBoth(s: State, t: State, u: State, a: seq<Op>, b: seq<Op>, first: seq<Item>, second: seq<Item>)
    requires Projects(s, a, t) && MayFollow(a, b)
    requires Remembers(s, a, t, first) && Remembers(t, b, u, second)
    ensures Remembers(s, a + b, u, first + second)
  {
    hide Projects, MayFollow, Replaces, Last;
    LastOfLast(s.replaced, t.replaced, first, second, KEEP_REPLACED);
    LastAlike(t.replaced + second, s.replaced + (first + second), u.replaced);
    forall f ensures f in first + second <==> Replaces(s, a + b, f)
    ensures !(f in first && f in second) {
      ReplacesBoth(s, t, a, b, f);
    }
    var all := first + second;
    forall i, j | 0 <= i < j < |all| ensures all[i] != all[j] {
      if i < |first| <= j {
        assert all[i] in first && all[j] in second;
      }
    }
  }

  lemma LastAlike<T>(a: seq<T>, b: seq<T>, c: seq<T>)
    ensures Last(c, KEEP_REPLACED) == Last(a, KEEP_REPLACED) && Last(a, KEEP_REPLACED) == Last(b, KEEP_REPLACED)
            ==> Last(c, KEEP_REPLACED) == Last(b, KEEP_REPLACED)
  {
  }

  /** The operations take the one state to the other, by the laws of this
      module. */
  ghost predicate Does(s: State, ops: seq<Op>, t: State) {
    Projects(s, ops, t) && exists more :: Remembers(s, ops, t, more)
  }

  lemma DoesBoth(s: State, t: State, u: State, a: seq<Op>, b: seq<Op>)
    requires Does(s, a, t) && Does(t, b, u) && MayFollow(a, b)
    ensures Does(s, a + b, u)
  {
    hide Projects, MayFollow, Remembers;
    var first :| Remembers(s, a, t, first);
    var second :| Remembers(t, b, u, second);
    ProjectsBoth(s, t, u, a, b);
    RemembersBoth(s, t, u, a, b, first, second);
  }

  lemma DoesNothing(s: State, t: State)
    requires Facts(s) == Facts(t) && s.replaced == t.replaced
    ensures Does(s, [], t)
  {
    hide Facts, Last;
    assert s.replaced + [] == s.replaced;
    assert Remembers(s, [], t, []);
  }

  lemma BringsOne(op: Op)
    ensures forall f :: Brings([op], f) <==> OpBrings(op, f)
    ensures forall id :: Deletes([op], id) <==> op == DeleteOp(id)
  {
    assert forall o :: o in [op] <==> o == op;
  }

  predicate InLibrary(lib: Library, f: Item) {
    match f
    case Page(_, k, v) => k in lib.stored && lib.stored[k] == v
    case Document(_, k, v) => k in lib.docs && lib.docs[k].version == v
  }

  lemma FactsAre(s: State)
    ensures forall f :: f in Facts(s) <==> f.lib in s.libs && InLibrary(s.libs[f.lib], f)
  {
  }

  /* ---- the stages ---- */

  lemma PublishDoes(s: State, id: LibId, key: nat)
    requires id in s.libs
    ensures Does(s, PublishIn(s, id, key).1, PublishIn(s, id, key).0)
  {
    hide Last, Facts;
    FactsAre(s);
    FactsAre(PublishIn(s, id, key).0);
    var (t, ops) := PublishIn(s, id, key);
    var lib := s.libs[id];
    var now := Document(id, key, t.libs[id].docs[key].version);
    BringsOne(ops[0]);
    forall f ensures f in Facts(t) <==> f == now || (f in Facts(s) && !SameSlot(f, now)) {
    }
    var more := if key in lib.docs then [Document(id, key, lib.docs[key].version)] else [];
    assert forall f :: Overwrites(ops, f) <==> SameSlot(f, now) by {
      assert Brings(ops, now);
    }
    assert Remembers(s, ops, t, more);
  }

  lemma DeleteDoes(s: State, id: LibId)
    requires id in s.libs
    ensures Does(s, [DeleteOp(id)], DeleteFrom(s, id))
  {
    hide Last, GoneOf, Facts;
    FactsAre(s);
    FactsAre(DeleteFrom(s, id));
    BringsOne(DeleteOp(id));
    var t := DeleteFrom(s, id);
    forall f ensures f in Facts(t) <==> f in Facts(s) && f.lib != id {
    }
    assert s.replaced + [] == s.replaced;
    assert Remembers(s, [DeleteOp(id)], t, []);
  }

  lemma {:induction false} LandedAre(lib: Library, pages: seq<PageSpec>)
    requires forall i | 0 <= i < |pages| :: PageOf(lib, pages[i])
    ensures forall k :: k in Landed(pages) ==> k in lib.site && Landed(pages)[k] == lib.site[k]
    ensures forall k, v :: PageSpec(k, v, false) in pages <==> k in Landed(pages) && Landed(pages)[k] == v
  {
    if pages != [] {
      var init, p := pages[..|pages| - 1], pages[|pages| - 1];
      LandedAre(lib, init);
      assert PageOf(lib, p);
      assert pages == init + [p];
    }
  }

  /** A crawl of a surveyed site replaces each version it finds changed, once. */
  lemma {:induction false} SupersededAre(id: LibId, lib: Library, pages: seq<PageSpec>)
    requires forall i | 0 <= i < |pages| :: PageOf(lib, pages[i])
    ensures forall r :: r in Superseding(id, lib.stored, pages) <==>
              && r.Page? && r.lib == id && r.key in lib.stored && lib.stored[r.key] == r.version
              && r.key in Landed(pages) && Landed(pages)[r.key] != r.version
    ensures NoRepeats(Superseding(id, lib.stored, pages))
  {
    if pages != [] {
      var init, p := pages[..|pages| - 1], pages[|pages| - 1];
      SupersededAre(id, lib, init);
      LandedAre(lib, init);
      assert PageOf(lib, p);
      var before, all := Superseding(id, lib.stored, init), Superseding(id, lib.stored, pages);
      assert forall i | 0 <= i < |before| :: before[i] in before;
    }
  }

  lemma CrawlDoes(s: State, c: Crawl)
    requires c.job.lib in s.libs && CrawlOf(s.libs[c.job.lib], c)
    ensures Does(s, [CrawlOp(c)], ApplyCrawl(s, c))
  {
    hide Last, Facts, Landed, Superseding;
    var id, t := c.job.lib, ApplyCrawl(s, c);
    var lib := s.libs[id];
    FactsAre(s);
    FactsAre(t);
    BringsOne(CrawlOp(c));
    LandedAre(lib, c.pages);
    SupersededAre(id, lib, c.pages);
    var ops, more := [CrawlOp(c)], Superseding(id, lib.stored, c.pages);
    forall f ensures Overwrites(ops, f) <==> f.Page? && f.lib == id && f.key in Landed(c.pages) {
      if f.Page? && f.lib == id && f.key in Landed(c.pages) {
        assert Brings(ops, Page(id, f.key, Landed(c.pages)[f.key]));
      }
    }
    LastTwice(s.replaced + more);
    assert Remembers(s, ops, t, more);
  }

  lemma LastTwice<T>(s: seq<T>)
    ensures Last(Last(s, KEEP_REPLACED), KEEP_REPLACED) == Last(s, KEEP_REPLACED)
  {
  }

  lemma BroughtAtSite(s: State, crawls: seq<Crawl>, n: nat, f: Item)
    requires CrawlsOk(s, crawls) && n <= |crawls| && Brings(CrawlOps(crawls[..n]), f)
    ensures f.Page? && f.lib in s.libs && f.key in s.libs[f.lib].site && f.version == s.libs[f.lib].site[f.key]
  {
    hide Bare, Landed;
    var op :| op in CrawlOps(crawls[..n]) && OpBrings(op, f);
    var i :| 0 <= i < n && crawls[i] == op.crawl;
    var j :| 0 <= j < |op.crawl.pages| && op.crawl.pages[j] == PageSpec(f.key, f.version, false);
    assert CrawlOf(s.libs[f.lib], op.crawl) && PageOf(s.libs[f.lib], op.crawl.pages[j]);
  }

  lemma NothingDeleted(crawls: seq<Crawl>)
    ensures forall id :: !Deletes(CrawlOps(crawls), id)
  {
  }

  lemma CrawlFollows(s: State, crawls: seq<Crawl>, n: nat)
    requires CrawlsOk(s, crawls) && 0 < n <= |crawls|
    ensures MayFollow(CrawlOps(crawls[..n - 1]), [CrawlOp(crawls[n - 1])])
    ensures CrawlOps(crawls[..n]) == CrawlOps(crawls[..n - 1]) + [CrawlOp(crawls[n - 1])]
  {
    hide CrawlsOk, OpBrings;
    var a, b := CrawlOps(crawls[..n - 1]), [CrawlOp(crawls[n - 1])];
    assert CrawlOps(crawls[..n]) == a + b;
    NothingDeleted(crawls[..n - 1]);
    BringsBoth(a, b);
    forall f, g | Brings(a, f) && Brings(b, g) && SameSlot(f, g) ensures f == g {
      BroughtAtSite(s, crawls, n, f);
      BroughtAtSite(s, crawls, n, g);
    }
  }

  lemma {:induction false} CrawlsDo(args: Args, s: State, crawls: seq<Crawl>, n: nat)
    requires StateOk(args, s) && CrawlsOk(s, crawls) && n <= |crawls|
    ensures Does(s, CrawlOps(crawls[..n]), ApplyCrawls(s, crawls[..n]))
    ensures ApplyCrawls(s, crawls[..n]).deleted == s.deleted
  {
    hide StateOk, CrawlsOk, CrawlOf, Does, Advances, Landed, Superseding, Last;
    if n == 0 {
      DoesNothing(s, s);
      assert CrawlOps(crawls[..0]) == [];
      return;
    }
    CrawlsDo(args, s, crawls, n - 1);
    var t, c := ApplyCrawls(s, crawls[..n - 1]), crawls[n - 1];
    ApplyCrawlsOk(args, s, crawls, n - 1);
    CrawlAt(s, t, crawls, n - 1);
    CrawlDoes(t, c);
    ApplyOneMore(s, crawls, n);
    CrawlFollows(s, crawls, n);
    DoesBoth(s, t, ApplyCrawl(t, c), CrawlOps(crawls[..n - 1]), [CrawlOp(c)]);
  }

  /** Nothing that is held or remembered is touched. */
  predicate Untouched(s: State, t: State) {
    Facts(t) == Facts(s) && t.replaced == s.replaced && t.deleted == s.deleted
  }

  lemma RefreshTouchesNothing(cycle: nat, s: State, d: Draws)
    ensures Untouched(s, StageRefresh(cycle, s, d).0)
  {
    hide Facts, PageSpecs, RefreshedPages, NewPages;
    var t := StageRefresh(cycle, s, d).0;
    FactsAre(s);
    FactsAre(t);
    assert forall f :: f in Facts(s) <==> f in Facts(t);
  }

  lemma CreateInTouchesNothing(args: Args, cycle: nat, s: State)
    requires LibId(cycle, s.nextLib) !in s.libs
    ensures Untouched(s, CreateIn(args, cycle, s))
  {
    hide Facts, NewPages;
    FactsAre(s);
    FactsAre(CreateIn(args, cycle, s));
    assert forall f :: f in Facts(s) <==> f in Facts(CreateIn(args, cycle, s));
  }

  lemma {:induction false} CreateTouchesNothing(args: Args, cycle: nat, s: State, d: Draws, wanted: nat, first: seq<Crawl>)
    requires StateOk(args, s) && args.pages >= 1 && CrawlsOk(s, first)
    ensures Untouched(s, StageCreate(args, cycle, s, d, wanted).0)
  {
    hide StateOk, CrawlsOk, Facts, PageSpecs, CreateIn;
    if wanted > 0 {
      CreateTouchesNothing(args, cycle, s, d, wanted - 1, first);
      var t := StageCreate(args, cycle, s, d, wanted - 1).0;
      CreateOk(args, cycle, s, d, wanted - 1, first);
      if |t.libs| < args.libraries {
        CreateInOk(args, cycle, t);
        CreateInTouchesNothing(args, cycle, t);
      }
    }
  }

  lemma DocumentDoes(cycle: nat, s: State, d: Draws)
    ensures var (t, ops) := StageDocument(cycle, s, d);
            Does(s, ops, t) && t.deleted == s.deleted && (forall id :: !Deletes(ops, id)) && forall f | Brings(ops, f) :: f.Document?
  {
    hide Does, DocumentKey, OpBrings;
    var id := d.docLib(s.libs.Keys);
    if DocumentDue(cycle, s, d) && id in s.libs {
      var key := DocumentKey(s.libs[id], d);
      PublishDoes(s, id, key);
      BringsOne(PublishIn(s, id, key).1[0]);
      DocumentBrings(PublishIn(s, id, key).1[0]);
    } else {
      DoesNothing(s, s);
    }
  }

  lemma DocumentBrings(op: Op)
    requires op.DocumentOp?
    ensures forall f | OpBrings(op, f) :: f.Document?
  {
  }

  /** The record of a deleted library is what it held after the operations. */
  ghost predicate RecordIs(s: State, ops: seq<Op>, id: LibId, g: Gone) {
    forall f :: HeldBy(g, f) <==> f.lib == id && HeldAfter(s, ops, f)
  }

  ghost predicate RecordedLast(s: State, ops: seq<Op>, t: State, id: LibId) {
    exists g: Gone :: g.id == id && RecordIs(s, ops, id, g) && t.deleted == Last(s.deleted + [g], KEEP_DELETED)
  }

  /** What is deleted, one library at most, is recorded; other records stay. */
  ghost predicate Records(s: State, ops: seq<Op>, t: State) {
    && ((forall id :: !Deletes(ops, id)) ==> t.deleted == s.deleted)
    && (forall id | Deletes(ops, id) :: id in s.libs && RecordedLast(s, ops, t, id))
  }

  lemma GoneIsHeld(s: State, id: LibId)
    requires id in s.libs
    ensures forall f :: HeldBy(GoneOf(id, s.libs[id]), f) <==> f.lib == id && f in Facts(s)
  {
    hide Facts, HeldDocuments;
    FactsAre(s);
  }

  lemma DeleteStageDoes(cycle: nat, s: State, d: Draws)
    ensures var (t, ops) := StageDelete(cycle, s, d);
            Does(s, ops, t) && Records(s, ops, t) && forall f :: !Brings(ops, f)
  {
    hide Does, GoneOf, Facts, Last;
    var id := d.deleteLib(s.libs.Keys);
    if DeleteDue(cycle, s, d) && id in s.libs {
      DeleteDoes(s, id);
      GoneIsHeld(s, id);
      BringsOne(DeleteOp(id));
      GoneNames(id, s.libs[id]);
      assert RecordIs(s, [DeleteOp(id)], id, GoneOf(id, s.libs[id]));
    } else {
      DoesNothing(s, s);
    }
  }

  /** Documents, then a delete. */
  lemma EarlyDo(cycle: nat, s: State, d: Draws)
    ensures var (s1, docs) := StageDocument(cycle, s, d);
            var (s2, deletes) := StageDelete(cycle, s1, d);
            Does(s, docs + deletes, s2) && Records(s, docs + deletes, s2) && forall f | Brings(docs + deletes, f) :: f.Document?
  {
    hide Does, Facts, Last, StageDocument, StageDelete, OpBrings;
    var (s1, docs) := StageDocument(cycle, s, d);
    var (s2, deletes) := StageDelete(cycle, s1, d);
    DocumentDoes(cycle, s, d);
    DeleteStageDoes(cycle, s1, d);
    BringsBoth(docs, deletes);
    DoesBoth(s, s1, s2, docs, deletes);
    DoesProjects(s, docs, s1);
    forall id | Deletes(docs + deletes, id) ensures id in s.libs && RecordedLast(s, docs + deletes, s2, id) {
      RecordsBefore(s, s1, s2, docs, deletes, id);
      DocumentKeepsLibs(cycle, s, d);
    }
  }

  lemma DocumentKeepsLibs(cycle: nat, s: State, d: Draws)
    ensures StageDocument(cycle, s, d).0.libs.Keys == s.libs.Keys
  {
  }

  lemma DoesProjects(s: State, ops: seq<Op>, t: State)
    requires Does(s, ops, t)
    ensures Projects(s, ops, t)
  {
  }

  lemma RecordsBefore(s: State, s1: State, s2: State, docs: seq<Op>, deletes: seq<Op>, id: LibId)
    requires Projects(s, docs, s1) && s1.deleted == s.deleted && (forall x :: !Deletes(docs, x))
    requires RecordedLast(s1, deletes, s2, id) && forall f :: !Brings(deletes, f)
    ensures RecordedLast(s, docs + deletes, s2, id)
  {
    hide Facts, Last, Brings, HeldBy;
    BringsBoth(docs, deletes);
    var g: Gone :| g.id == id && RecordIs(s1, deletes, id, g) && s2.deleted == Last(s1.deleted + [g], KEEP_DELETED);
    assert RecordIs(s, docs + deletes, id, g);
  }

  /* ---- the whole plan ---- */

  lemma DoesBetween(s: State, s': State, ops: seq<Op>, t: State, t': State)
    requires Untouched(s, s') && Does(s', ops, t) && Facts(t) == Facts(t') && t.replaced == t'.replaced
    ensures Does(s, ops, t')
  {
    hide Facts, Last, Brings;
    var more :| Remembers(s', ops, t, more);
    assert Remembers(s, ops, t', more);
  }

  lemma RecordsBetween(s: State, s': State, ops: seq<Op>, t: State, t': State)
    requires Untouched(s, s') && Records(s', ops, t) && t'.deleted == t.deleted && s'.libs.Keys == s.libs.Keys
    ensures Records(s, ops, t')
  {
    hide Facts, Last, Brings, HeldBy, Deletes;
    forall id | Deletes(ops, id) ensures RecordedLast(s, ops, t', id) {
      var g: Gone :| g.id == id && RecordIs(s', ops, id, g) && t.deleted == Last(s'.deleted + [g], KEEP_DELETED);
      assert RecordIs(s, ops, id, g);
    }
  }

  lemma SwitchTouchesNothing(args: Args, cycle: nat, s: State)
    ensures Untouched(s, StageSwitch(args, cycle, s)) && StageSwitch(args, cycle, s).libs == s.libs
  {
  }

  lemma LastRecord(s: State, ops: seq<Op>, t: State, id: LibId)
    requires RecordedLast(s, ops, t, id)
    ensures t.deleted != [] && t.deleted[|t.deleted| - 1].id == id && RecordIs(s, ops, id, t.deleted[|t.deleted| - 1])
  {
    hide RecordIs;
  }

  /** Crawls of libraries that live follow on documents and a delete. */
  lemma CrawlsFollow(args: Args, s: State, a: seq<Op>, t: State, crawls: seq<Crawl>)
    requires Records(s, a, t) && DeletedOk(t) && CrawlsOk(t, crawls) && forall f | Brings(a, f) :: f.Document?
    ensures MayFollow(a, CrawlOps(crawls))
    ensures forall f | Brings(CrawlOps(crawls), f) :: f.Page? && f.lib in t.libs
  {
    hide Brings, CrawlsOk, RecordedLast;
    assert crawls[..|crawls|] == crawls;
    forall f | Brings(CrawlOps(crawls), f) ensures f.Page? && f.lib in t.libs && !Deletes(a, f.lib) {
      BroughtAtSite(t, crawls, |crawls|, f);
      if Deletes(a, f.lib) {
        LastRecord(s, a, t, f.lib);
      }
    }
  }

  lemma RecordsAfterCrawls(s: State, a: seq<Op>, t: State, crawls: seq<Crawl>, u: State)
    requires Records(s, a, t) && MayFollow(a, CrawlOps(crawls)) && u.deleted == t.deleted
    ensures Records(s, a + CrawlOps(crawls), u)
  {
    hide Facts, Last, Brings, HeldBy, Deletes;
    var b := CrawlOps(crawls);
    NothingDeleted(crawls);
    BringsBoth(a, b);
    forall id | Deletes(a, id) ensures RecordedLast(s, a + b, u, id) {
      var g: Gone :| g.id == id && RecordIs(s, a, id, g) && t.deleted == Last(s.deleted + [g], KEEP_DELETED);
      assert RecordIs(s, a + b, id, g);
    }
  }

  lemma StagesAre(args: Args, cycle: nat, s: State, d: Draws)
    ensures var s0 := StageSwitch(args, cycle, s);
            var (s1, docs) := StageDocument(cycle, s0, d);
            var (s2, deletes) := StageDelete(cycle, s1, d);
            var (s3, refreshes) := StageRefresh(cycle, s2, d);
            var (s4, sites) := StageCreate(args, cycle, s3, d, Wanted(cycle, d));
            Stages(args, cycle, false, s, d) == (s4, docs + deletes, refreshes + sites)
  {
    hide StageSwitch, StageDocument, StageDelete, StageRefresh, StageCreate;
  }

  /** Everything before the crawls. */
  lemma StagesDo(args: Args, cycle: nat, s: State, d: Draws)
    requires StateOk(args, s) && Stocked(s) && Fair(args, d) && args.pages >= 1
    ensures var (t, ops, crawls) := Stages(args, cycle, false, s, d);
            Does(s, ops, t) && Records(s, ops, t) && forall f | Brings(ops, f) :: f.Document?
  {
    hide StateOk, Stocked, Fair, Does, Records, StageSwitch, StageDocument, StageDelete, StageRefresh, StageCreate, Facts, Brings, CrawlsOk, Stages;
    var s0 := StageSwitch(args, cycle, s);
    var (s1, docs) := StageDocument(cycle, s0, d);
    var (s2, deletes) := StageDelete(cycle, s1, d);
    var (s3, refreshes) := StageRefresh(cycle, s2, d);
    var s4 := StageCreate(args, cycle, s3, d, Wanted(cycle, d)).0;
    StagesAre(args, cycle, s, d);
    SwitchTouchesNothing(args, cycle, s);
    EarlyDo(cycle, s0, d);
    EarlyStagesOk(args, cycle, s, d);
    RefreshStageOk(args, cycle, s2, d);
    RefreshTouchesNothing(cycle, s2, d);
    CreateTouchesNothing(args, cycle, s3, d, Wanted(cycle, d), refreshes);
    DoesBetween(s, s0, docs + deletes, s2, s4);
    RecordsBetween(s, s0, docs + deletes, s2, s4);
  }

  /** What a plan projects is what its operations do to what was held: nothing
      else comes, goes, is remembered as replaced, or recorded as deleted. */
  lemma PlanProjects(args: Args, cycle: nat, final: bool, probe: set<LibId>, s: State, d: Draws)
    requires StateOk(args, s) && Stocked(s) && Fair(args, d) && args.pages >= 1
    ensures var (plan, proj) := Planned(args, cycle, final, probe, s, d);
            Does(s, plan.ops, proj) && Records(s, plan.ops, proj)
  {
    hide StateOk, Stocked, Fair, Does, Records, Stages, Facts, Brings, GoneFacts, Probed, CrawlsOk, CrashDue, MayFollow, ApplyCrawls;
    var (t, ops, crawls) := Stages(args, cycle, final, s, d);
    var u := ApplyCrawls(t, crawls);
    StagesOk(args, cycle, final, s, d);
    StagesOrNone(args, cycle, final, s, d);
    CrawlsDo(args, t, crawls, |crawls|);
    assert crawls[..|crawls|] == crawls;
    assert DeletedOk(t) by { StateIsOk(args, t); }
    CrawlsFollow(args, s, ops, t, crawls);
    DoesBoth(s, t, u, ops, CrawlOps(crawls));
    RecordsAfterCrawls(s, ops, t, crawls, u);
    var proj := Planned(args, cycle, final, probe, s, d).1;
    CountsApart(u, proj.counts);
    DoesBetween(s, s, ops + CrawlOps(crawls), u, proj);
    RecordsBetween(s, s, ops + CrawlOps(crawls), u, proj);
  }

  lemma StateIsOk(args: Args, s: State)
    requires StateOk(args, s)
    ensures DeletedOk(s)
  {
  }

  lemma CountsApart(s: State, counts: Counts)
    ensures Facts(s.(counts := counts)) == Facts(s)
  {
  }

  lemma StagesOrNone(args: Args, cycle: nat, final: bool, s: State, d: Draws)
    requires StateOk(args, s) && Stocked(s) && Fair(args, d) && args.pages >= 1
    ensures var (t, ops, crawls) := Stages(args, cycle, final, s, d);
            Does(s, ops, t) && Records(s, ops, t) && forall f | Brings(ops, f) :: f.Document?
  {
    hide StateOk, Stocked, Fair, Does;
    if final {
      DoesNothing(s, s);
    } else {
      hide Stages, Records, Brings;
      StagesDo(args, cycle, s, d);
    }
  }

  /* ---- what may be required absent ---- */

  lemma LastWithin<T>(a: seq<T>, b: seq<T>, n: nat, m: nat)
    requires Last(a, n) == Last(b, n) && m <= n
    ensures Last(a, m) == Last(b, m)
  {
    assert Last(Last(a, n), m) == Last(a, m);
    assert Last(Last(b, n), m) == Last(b, m);
  }

  lemma LastHolds<T>(s: seq<T>, x: T, n: nat)
    requires n > 0
    ensures x in Last(s + [x], n) && Last(s + [x], n) != [] && Last(s + [x], n)[|Last(s + [x], n)| - 1] == x
  {
    assert (s + [x])[|s|] == x;
  }

  /** All of the second part is among the last just when it is short enough. */
  lemma AllAmongLast(s: seq<Item>, more: seq<Item>, n: nat)
    requires NoRepeats(more)
    ensures (forall f | f in more :: f in Last(s + more, n)) <==> |more| <= n
  {
    var all := s + more;
    if |more| <= n {
      forall f | f in more ensures f in Last(all, n) {
        var i :| 0 <= i < |more| && more[i] == f;
        var last := Last(all, n);
        assert last[|last| - |more| + i] == all[|all| - |more| + i];
      }
    } else {
      var last := Last(all, n);
      forall i | 0 <= i < |last| ensures last[i] != more[0] {
        assert last[i] == more[|more| - |last| + i];
      }
      assert more[0] in more;
    }
  }

  lemma NewestRecord(s: State, ops: seq<Op>, t: State, f: Item)
    requires RecordedLast(s, ops, t, f.lib) && HeldAfter(s, ops, f)
    ensures exists g | g in Last(t.deleted, ASK_DELETED) :: HeldBy(g, f)
  {
    hide HeldAfter, HeldBy;
    LastRecord(s, ops, t, f.lib);
    var g := t.deleted[|t.deleted| - 1];
    assert Last(t.deleted, ASK_DELETED)[|Last(t.deleted, ASK_DELETED)| - 1] == g;
    assert HeldBy(g, f);
  }

  /** A record among a cycle's is the one it made, or was there before. */
  lemma OldOrNewRecord(s: State, ops: seq<Op>, t: State, g: Gone)
    requires Records(s, ops, t) && g in t.deleted
    ensures g in s.deleted || (Deletes(ops, g.id) && RecordIs(s, ops, g.id, g))
  {
    hide RecordIs, Deletes;
    if id :| Deletes(ops, id) {
      var h: Gone :| h.id == id && RecordIs(s, ops, id, h) && t.deleted == Last(s.deleted + [h], KEEP_DELETED);
      assert g in s.deleted + [h];
    }
  }

  lemma ReplacedNotRecorded(s: State, ops: seq<Op>, t: State, f: Item)
    requires Records(s, ops, t) && DeletedOk(s) && Replaces(s, ops, f)
    ensures !exists g | g in Last(t.deleted, ASK_DELETED) :: HeldBy(g, f)
  {
    hide Overwrites, Brings, Records, RecordedLast, HeldBy, Facts, DeletedOk;
    FactsAre(s);
    RecordsNotLive(s);
    forall g | g in Last(t.deleted, ASK_DELETED) ensures !HeldBy(g, f) {
      OldOrNewRecord(s, ops, t, g);
      OnlyOfIts(g, f);
    }
  }

  lemma RecordsNotLive(s: State)
    requires DeletedOk(s)
    ensures forall g | g in s.deleted :: g.id !in s.libs
  {
  }

  lemma OnlyOfIts(g: Gone, f: Item)
    ensures HeldBy(g, f) ==> g.id == f.lib
  {
  }

  lemma ReplacedKnown(s: State, ops: seq<Op>, t: State, f: Item)
    requires Projects(s, ops, t) && Records(s, ops, t) && Replaces(s, ops, f)
    ensures f !in Facts(t) && (f.lib in t.libs || Deleted(t, f.lib))
  {
    hide Facts, Brings, RecordIs;
    FactsAre(t);
    if Deletes(ops, f.lib) {
      LastRecord(s, ops, t, f.lib);
    } else {
      var g :| Brings(ops, g) && SameSlot(f, g);
      assert HeldAfter(s, ops, g);
      assert g in Facts(t);
    }
  }

  /** Of what the cycle takes away: what it replaced is required absent while it
      is among the last sixty replaced, the rest always. */
  lemma LostIsAbsent(args: Args, s: State, ops: seq<Op>, t: State, f: Item)
    requires StateOk(args, s) && StateOk(args, t) && Projects(s, ops, t) && Records(s, ops, t) && f in Facts(s)
    ensures Replaces(s, ops, f) ==>
              f !in Facts(t) && (Absent(f, f.lib !in t.libs) in GoneFacts(t) <==> f in Last(t.replaced, ASK_REPLACED))
    ensures f !in Facts(t) && !Replaces(s, ops, f) ==> Absent(f, f.lib !in t.libs) in GoneFacts(t)
  {
    hide Facts, GoneFacts, Brings, Overwrites, HeldBy, LibsOk, ReplacedOk, Last;
    GoneExactly(args, t, f);
    if Replaces(s, ops, f) {
      ReplacedKnown(s, ops, t, f);
      ReplacedNotRecorded(s, ops, t, f);
    } else if f !in Facts(t) {
      NewestRecord(s, ops, t, f);
    }
  }

  /** Everything a cycle takes away its own searches may require absent, if and
      only if it replaced at most sixty: those are remembered in the order they
      were replaced, and the versions replaced first are passed over. */
  lemma LostAreAbsent(args: Args, cycle: nat, final: bool, probe: set<LibId>, s: State, d: Draws) returns (more: seq<Item>)
    requires StateOk(args, s) && Stocked(s) && Fair(args, d) && args.pages >= 1
    ensures var (plan, proj) := Planned(args, cycle, final, probe, s, d);
            && Remembers(s, plan.ops, proj, more)
            && ((forall f | f in Facts(s) && f !in Facts(proj) :: Absent(f, f.lib !in proj.libs) in GoneFacts(proj))
                <==> |more| <= ASK_REPLACED)
  {
    hide StateOk, Stocked, Fair, Planned, Facts, GoneFacts, Records, Projects, Replaces, Last;
    var (plan, proj) := Planned(args, cycle, final, probe, s, d);
    PlannedOk(args, cycle, final, probe, s, d);
    PlanProjects(args, cycle, final, probe, s, d);
    more :| Remembers(s, plan.ops, proj, more);
    AllAmongLast(s.replaced, more, ASK_REPLACED);
    LastWithin(proj.replaced, s.replaced + more, KEEP_REPLACED, ASK_REPLACED);
    forall f | f in Facts(s)
      ensures Replaces(s, plan.ops, f) ==>
                f !in Facts(proj) && (Absent(f, f.lib !in proj.libs) in GoneFacts(proj) <==> f in Last(proj.replaced, ASK_REPLACED))
      ensures f !in Facts(proj) && !Replaces(s, plan.ops, f) ==> Absent(f, f.lib !in proj.libs) in GoneFacts(proj) {
      LostIsAbsent(args, s, plan.ops, proj, f);
    }
    ReplacesFacts(s, plan.ops);
  }

  lemma ReplacesFacts(s: State, ops: seq<Op>)
    ensures forall f | Replaces(s, ops, f) :: f in Facts(s)
  {
    hide Facts;
  }

  /** All a library held when it was deleted, what the cycle published in it
      just before included, may be required absent at once. */
  lemma DeletedIsAbsent(args: Args, cycle: nat, final: bool, probe: set<LibId>, s: State, d: Draws, f: Item)
    requires StateOk(args, s) && Stocked(s) && Fair(args, d) && args.pages >= 1
    requires var ops := Planned(args, cycle, final, probe, s, d).0.ops; Deletes(ops, f.lib) && HeldAfter(s, ops, f)
    ensures Absent(f, true) in GoneFacts(Planned(args, cycle, final, probe, s, d).1)
  {
    hide Stocked, Fair, Planned, Facts, GoneFacts, RecordedLast, HeldBy, LibsOk, ReplacedOk, HeldAfter, Last, Does;
    var (plan, proj) := Planned(args, cycle, final, probe, s, d);
    PlannedOk(args, cycle, final, probe, s, d);
    PlanProjects(args, cycle, final, probe, s, d);
    NewestRecord(s, plan.ops, proj, f);
    RecordNotLive(args, s, plan.ops, proj, f.lib);
    GoneExactly(args, proj, f);
  }

  lemma RecordNotLive(args: Args, s: State, ops: seq<Op>, t: State, id: LibId)
    requires StateOk(args, t) && RecordedLast(s, ops, t, id)
    ensures id !in t.libs
  {
    hide RecordIs;
    LastRecord(s, ops, t, id);
  }

  /* ---- over a run ---- */

  /** The record `age` deletes ago is of a library that held the item. */
  predicate RecordedAgo(s: State, f: Item, age: int) {
    0 <= age < |s.deleted| && HeldBy(s.deleted[|s.deleted| - 1 - age], f)
  }

  lemma RecordsAge(s: State, ops: seq<Op>, t: State, f: Item, age: int)
    requires Records(s, ops, t) && RecordedAgo(s, f, age)
    ensures (forall id :: !Deletes(ops, id)) ==> RecordedAgo(t, f, age)
    ensures (exists id :: Deletes(ops, id)) && age + 1 < KEEP_DELETED ==> RecordedAgo(t, f, age + 1)
  {
    hide RecordIs, HeldBy, Deletes, Last;
    if id :| Deletes(ops, id) {
      var g: Gone :| g.id == id && RecordIs(s, ops, id, g) && t.deleted == Last(s.deleted + [g], KEEP_DELETED);
      if age + 1 < KEEP_DELETED {
        OneOlder(s.deleted, g, age);
      }
    }
  }

  lemma OneOlder(deleted: seq<Gone>, g: Gone, age: nat)
    requires age < |deleted| && age + 1 < KEEP_DELETED
    ensures var now := Last(deleted + [g], KEEP_DELETED);
            age + 1 < |now| && now[|now| - 1 - (age + 1)] == deleted[|deleted| - 1 - age]
  {
  }

  /** The deletes are counted. */
  lemma DeletesCounted(args: Args, cycle: nat, final: bool, probe: set<LibId>, s: State, d: Draws)
    ensures var (plan, proj) := Planned(args, cycle, final, probe, s, d);
            if exists id :: Deletes(plan.ops, id) then proj.counts.deletes == s.counts.deletes + 1 else proj.counts.deletes == s.counts.deletes
  {
    hide Facts, GoneFacts, Probed, CrashDue, ApplyCrawls, Stages;
    var (t, ops, crawls) := Stages(args, cycle, final, s, d);
    NothingDeleted(crawls);
    CrawlsCount(t, crawls);
    StagesCount(args, cycle, final, s, d);
    assert forall id :: Deletes(ops + CrawlOps(crawls), id) <==> Deletes(ops, id);
  }

  lemma {:induction false} CrawlsCount(s: State, crawls: seq<Crawl>)
    ensures ApplyCrawls(s, crawls).counts == s.counts
  {
    hide Landed, Superseding, Last;
    if crawls != [] {
      CrawlsCount(s, crawls[..|crawls| - 1]);
    }
  }

  lemma {:induction false} CreateCounts(args: Args, cycle: nat, s: State, d: Draws, wanted: nat)
    ensures StageCreate(args, cycle, s, d, wanted).0.counts.deletes == s.counts.deletes
  {
    hide PageSpecs, NewLibrary;
    if wanted > 0 {
      CreateCounts(args, cycle, s, d, wanted - 1);
    }
  }

  lemma StagesCount(args: Args, cycle: nat, final: bool, s: State, d: Draws)
    ensures var (t, ops, crawls) := Stages(args, cycle, final, s, d);
            if exists id :: Deletes(ops, id) then t.counts.deletes == s.counts.deletes + 1 else t.counts.deletes == s.counts.deletes
  {
    if !final {
      hide PageSpecs, Surveyed, GoneOf, Last, DocumentKey, DocumentDue, DeleteDue, RefreshDue, StageCreate, Wanted;
      var s0 := StageSwitch(args, cycle, s);
      var (s1, docs) := StageDocument(cycle, s0, d);
      var (s2, deletes) := StageDelete(cycle, s1, d);
      var (s3, refreshes) := StageRefresh(cycle, s2, d);
      CreateCounts(args, cycle, s3, d, Wanted(cycle, d));
      var ops := docs + deletes;
      if deletes != [] {
        assert deletes[0] in ops && deletes[0].DeleteOp? && Deletes(ops, deletes[0].lib);
      } else {
        assert forall id :: !Deletes(ops, id);
      }
    }
  }

  /** A commit leaves records as they were, but for the documents' identities. */
  predicate SameRecords(a: seq<Gone>, b: seq<Gone>) {
    |a| == |b| && forall i | 0 <= i < |a| :: a[i].id == b[i].id && a[i].stored == b[i].stored && a[i].docs == b[i].docs
  }

  lemma {:induction false} CommitKeepsRecords(s: State, plan: Plan, done: map<nat, Result>, crashed: bool, n: nat)
    requires n <= |plan.ops| && CrashInCrawl(plan)
    ensures SameRecords(s.deleted, CommitOps(s, plan, done, crashed, n).deleted)
  {
    if n > 0 {
      CommitKeepsRecords(s, plan, done, crashed, n - 1);
    }
  }

  lemma CommittedRecord(plan: Plan, proj: State, lines: seq<Line>, crashed: bool, f: Item, age: int)
    requires CrashInCrawl(plan) && RecordedAgo(proj, f, age)
    ensures RecordedAgo(Committed(plan, proj, lines, crashed), f, age)
  {
    hide CommitOps, Done, Resumed, StillPending;
    CommitKeepsRecords(proj.(pending := StillPending(proj.pending, Resumed(lines))), plan, Done(lines), crashed, |plan.ops|);
  }

  /** The plan and the projection of a run's cycle. */
  function PlannedIn(args: Args, turns: seq<Turn>, n: nat): (Plan, State)
    requires n < |turns|
  {
    Planned(args, n + 1, turns[n].final, turns[n].probe, After(args, turns[..n]), turns[n].draws)
  }

  /** The cycle deletes the item's library, which holds it then. */
  ghost predicate DeletedIn(args: Args, turns: seq<Turn>, k: nat, f: Item)
    requires k < |turns|
  {
    var ops := PlannedIn(args, turns, k).0.ops;
    Deletes(ops, f.lib) && HeldAfter(After(args, turns[..k]), ops, f)
  }

  lemma AfterIsOk(args: Args, turns: seq<Turn>, n: nat)
    requires args.pages >= 1 && AllFair(args, turns) && n < |turns|
    ensures StateOk(args, After(args, turns[..n])) && Stocked(After(args, turns[..n])) && Fair(args, turns[n].draws)
  {
    hide StateOk, Stocked, Fair, After;
    assert AllFair(args, turns[..n]);
    AfterOk(args, turns[..n]);
  }

  /** The next cycle starts from what the last projected, as committed. */
  lemma Between(args: Args, turns: seq<Turn>, n: nat, f: Item, age: int)
    requires args.pages >= 1 && AllFair(args, turns) && 0 < n < |turns| && RecordedAgo(PlannedIn(args, turns, n - 1).1, f, age)
    ensures RecordedAgo(After(args, turns[..n]), f, age)
    ensures After(args, turns[..n]).counts == PlannedIn(args, turns, n - 1).1.counts
  {
    hide StateOk, Stocked, Fair, Planned, Committed, RecordedAgo, CrashInCrawl;
    AfterIsOk(args, turns, n - 1);
    var s, t := After(args, turns[..n - 1]), turns[n - 1];
    assert turns[..n][..n - 1] == turns[..n - 1];
    var (plan, proj) := PlannedIn(args, turns, n - 1);
    PlanShape(args, n, t.final, t.probe, s, t.draws);
    PlannedOk(args, n, t.final, t.probe, s, t.draws);
    CommitOk(args, plan, proj, t.lines, t.crashed);
    CommittedRecord(plan, proj, t.lines, t.crashed, f, age);
  }

  lemma RecordedFirst(args: Args, turns: seq<Turn>, k: nat, f: Item)
    requires args.pages >= 1 && AllFair(args, turns) && k < |turns| && DeletedIn(args, turns, k, f)
    ensures RecordedAgo(PlannedIn(args, turns, k).1, f, 0)
  {
    hide StateOk, Stocked, Fair, Planned, After, HeldAfter, HeldBy, Does, Deletes, RecordedLast;
    AfterIsOk(args, turns, k);
    var s := After(args, turns[..k]);
    PlanProjects(args, k + 1, turns[k].final, turns[k].probe, s, turns[k].draws);
    LastRecord(s, PlannedIn(args, turns, k).0.ops, PlannedIn(args, turns, k).1, f.lib);
  }

  lemma {:induction false} RecordedSince(args: Args, turns: seq<Turn>, k: nat, n: nat, f: Item)
    requires args.pages >= 1 && AllFair(args, turns) && k <= n < |turns| && DeletedIn(args, turns, k, f)
    ensures var age := PlannedIn(args, turns, n).1.counts.deletes - PlannedIn(args, turns, k).1.counts.deletes;
            age >= 0 && (age < KEEP_DELETED ==> RecordedAgo(PlannedIn(args, turns, n).1, f, age))
    decreases n
  {
    hide StateOk, Stocked, Fair, Planned, After, DeletedIn, RecordedAgo, Does, Deletes, Records;
    if n == k {
      RecordedFirst(args, turns, k, f);
    } else {
      RecordedSince(args, turns, k, n - 1, f);
      var age := PlannedIn(args, turns, n - 1).1.counts.deletes - PlannedIn(args, turns, k).1.counts.deletes;
      AfterIsOk(args, turns, n);
      var s, t := After(args, turns[..n]), turns[n];
      PlanProjects(args, n + 1, t.final, t.probe, s, t.draws);
      DeletesCounted(args, n + 1, t.final, t.probe, s, t.draws);
      CountsCarried(args, turns, n);
      if age < KEEP_DELETED {
        Between(args, turns, n, f, age);
        RecordsAge(s, PlannedIn(args, turns, n).0.ops, PlannedIn(args, turns, n).1, f, age);
      }
    }
  }

  lemma CountsCarried(args: Args, turns: seq<Turn>, n: nat)
    requires args.pages >= 1 && AllFair(args, turns) && 0 < n < |turns|
    ensures After(args, turns[..n]).counts == PlannedIn(args, turns, n - 1).1.counts
  {
    hide StateOk, Stocked, Fair, Planned, Committed, CrashInCrawl;
    AfterIsOk(args, turns, n - 1);
    var s, t := After(args, turns[..n - 1]), turns[n - 1];
    assert turns[..n][..n - 1] == turns[..n - 1];
    var (plan, proj) := PlannedIn(args, turns, n - 1);
    PlanShape(args, n, t.final, t.probe, s, t.draws);
    PlannedOk(args, n, t.final, t.probe, s, t.draws);
    CommitOk(args, plan, proj, t.lines, t.crashed);
  }

  /** In every run, whatever its children print: everything a library held when
      it was deleted may be required absent in that cycle and in every later
      one, until five more libraries have been deleted. */
  lemma DeletedStayAbsent(args: Args, turns: seq<Turn>, k: nat, n: nat, f: Item)
    requires args.pages >= 1 && AllFair(args, turns) && k <= n < |turns| && DeletedIn(args, turns, k, f)
    ensures var proj := PlannedIn(args, turns, n).1;
            proj.counts.deletes < PlannedIn(args, turns, k).1.counts.deletes + ASK_DELETED ==> Absent(f, true) in GoneFacts(proj)
  {
    hide Stocked, Fair, Planned, After, DeletedIn, GoneFacts, LibsOk, ReplacedOk;
    RecordedSince(args, turns, k, n, f);
    AfterIsOk(args, turns, n);
    var t, proj := turns[n], PlannedIn(args, turns, n).1;
    PlannedOk(args, n + 1, t.final, t.probe, After(args, turns[..n]), t.draws);
    var age := proj.counts.deletes - PlannedIn(args, turns, k).1.counts.deletes;
    if age < ASK_DELETED {
      RecordedIsAbsent(args, proj, f, age);
    }
  }

  lemma RecordedIsAbsent(args: Args, s: State, f: Item, age: int)
    requires StateOk(args, s) && RecordedAgo(s, f, age) && age < ASK_DELETED
    ensures Absent(f, true) in GoneFacts(s)
  {
    hide GoneFacts, LibsOk, ReplacedOk;
    var g, last := s.deleted[|s.deleted| - 1 - age], Last(s.deleted, ASK_DELETED);
    assert last[|last| - 1 - age] == g;
    GoneExactly(args, s, f);
  }

  /* ---- the documents of a deleted library ---- */

  lemma {:induction false} HeldDocumentsAre(lib: Library, upto: nat, x: nat)
    ensures Some(x) in HeldDocuments(lib, upto) <==> exists k :: k in lib.docs && k < upto && lib.docs[k].documentId == Some(x)
  {
    if upto > 0 {
      HeldDocumentsAre(lib, upto - 1, x);
    }
  }

  /** The identities are those of the library's documents, before or after the
      cycle published one: a new one has none yet. */
  predicate Identifies(lib: Library, g: Gone, x: nat) {
    Some(x) in g.documents <==> exists k :: k in lib.docs && lib.docs[k].documentId == Some(x)
  }

  lemma PublishKeepsIdentities(cycle: nat, s: State, d: Draws, id: LibId, x: nat)
    requires id in s.libs
    ensures var t := StageDocument(cycle, s, d).0;
            && id in t.libs
            && ((exists k :: k in t.libs[id].docs && t.libs[id].docs[k].documentId == Some(x)) <==>
                  exists k :: k in s.libs[id].docs && s.libs[id].docs[k].documentId == Some(x))
  {
    hide DocumentKey, DocumentDue;
    var t := StageDocument(cycle, s, d).0;
    if k :| k in s.libs[id].docs && s.libs[id].docs[k].documentId == Some(x) {
      assert k in t.libs[id].docs && t.libs[id].docs[k].documentId == Some(x);
    }
    if k :| k in t.libs[id].docs && t.libs[id].docs[k].documentId == Some(x) {
      assert k in s.libs[id].docs && s.libs[id].docs[k].documentId == Some(x);
    }
  }

  lemma DeleteIdentifies(args: Args, cycle: nat, s: State, d: Draws, id: LibId, x: nat)
    requires StateOk(args, s) && Deletes(StageDelete(cycle, s, d).1, id)
    ensures var t := StageDelete(cycle, s, d).0;
            id in s.libs && t.deleted != [] && Identifies(s.libs[id], t.deleted[|t.deleted| - 1], x)
  {
    hide HeldDocuments, DeleteDue, DeletedOk, ReplacedOk;
    LibOk(s, id);
    HeldDocumentsAre(s.libs[id], s.libs[id].nextDoc, x);
    assert StageDelete(cycle, s, d).0.deleted[|StageDelete(cycle, s, d).0.deleted| - 1] == GoneOf(id, s.libs[id]);
  }

  /** A delete's record names exactly the documents the library was known to
      hold, so all of them can be looked for. */
  lemma DeletedDocuments(args: Args, cycle: nat, final: bool, probe: set<LibId>, s: State, d: Draws, id: LibId, x: nat)
    requires StateOk(args, s) && Stocked(s) && Fair(args, d) && args.pages >= 1
    requires Deletes(Planned(args, cycle, final, probe, s, d).0.ops, id)
    ensures var proj := Planned(args, cycle, final, probe, s, d).1;
            id in s.libs && proj.deleted != [] && Identifies(s.libs[id], proj.deleted[|proj.deleted| - 1], x)
  {
    hide StateOk, Stocked, Fair, Facts, GoneFacts, Probed, CrashDue, ApplyCrawls, StageDocument, StageDelete, StageRefresh, StageCreate, CrawlsOk;
    hide Identifies;
    var (t, ops, crawls) := Stages(args, cycle, final, s, d);
    NothingDeleted(crawls);
    BringsBoth(ops, CrawlOps(crawls));
    assert !final;
    var s0 := StageSwitch(args, cycle, s);
    var (s1, docs) := StageDocument(cycle, s0, d);
    var (s2, deletes) := StageDelete(cycle, s1, d);
    var (s3, refreshes) := StageRefresh(cycle, s2, d);
    DocumentDoes(cycle, s0, d);
    BringsBoth(docs, deletes);
    SwitchOk(args, cycle, s);
    DocumentOk(args, cycle, s0, d);
    EarlyStagesOk(args, cycle, s, d);
    RefreshStageOk(args, cycle, s2, d);
    RefreshTouchesNothing(cycle, s2, d);
    CreateTouchesNothing(args, cycle, s3, d, Wanted(cycle, d), refreshes);
    StagesOk(args, cycle, final, s, d);
    CrawlsDo(args, t, crawls, |crawls|);
    assert crawls[..|crawls|] == crawls;
    DeleteIdentifies(args, cycle, s1, d, id, x);
    SameIdentities(args, cycle, s, d, id, x, s2.deleted[|s2.deleted| - 1]);
  }

  lemma SameIdentities(args: Args, cycle: nat, s: State, d: Draws, id: LibId, x: nat, g: Gone)
    requires var s1 := StageDocument(cycle, StageSwitch(args, cycle, s), d).0; id in s1.libs && Identifies(s1.libs[id], g, x)
    ensures id in s.libs && Identifies(s.libs[id], g, x)
  {
    DocumentKeepsLibs(cycle, StageSwitch(args, cycle, s), d);
    PublishKeepsIdentities(cycle, StageSwitch(args, cycle, s), d, id, x);
    hide StageDocument;
  }

  /** Operation `i` published document `x` into the library, the child says. */
  predicate PublishedBy(plan: Plan, done: map<nat, Result>, i: nat, id: LibId, x: Option<nat>)
    requires i < |plan.ops|
  {
    i in done && plan.ops[i].DocumentOp? && plan.ops[i].lib == id && done[i].documentId == x
  }

  predicate Published(plan: Plan, done: map<nat, Result>, n: nat, id: LibId, x: Option<nat>)
    requires n <= |plan.ops|
  {
    exists i :: 0 <= i < n && PublishedBy(plan, done, i, id, x)
  }

  lemma {:induction false} CommitOpsDocuments(s: State, plan: Plan, done: map<nat, Result>, crashed: bool, n: nat, j: nat, x: Option<nat>)
    requires n <= |plan.ops| && CrashInCrawl(plan) && j < |s.deleted| && s.deleted[j].id !in s.libs
    ensures var t := CommitOps(s, plan, done, crashed, n);
            && t.libs.Keys == s.libs.Keys && |t.deleted| == |s.deleted| && t.deleted[j].id == s.deleted[j].id
            && (x in t.deleted[j].documents <==> x in s.deleted[j].documents || Published(plan, done, n, s.deleted[j].id, x))
  {
    hide Published, CommitOp;
    if n == 0 {
      NonePublished(plan, done, s.deleted[j].id, x);
    } else {
      CommitOpsDocuments(s, plan, done, crashed, n - 1, j, x);
      CommitOpDocuments(CommitOps(s, plan, done, crashed, n - 1), plan, done, crashed, n - 1, j, x);
    }
  }

  lemma NonePublished(plan: Plan, done: map<nat, Result>, id: LibId, x: Option<nat>)
    ensures !Published(plan, done, 0, id, x)
  {
  }

  lemma CommitOpDocuments(s: State, plan: Plan, done: map<nat, Result>, crashed: bool, i: nat, j: nat, x: Option<nat>)
    requires i < |plan.ops| && CrashInCrawl(plan) && j < |s.deleted| && s.deleted[j].id !in s.libs
    ensures var t := CommitOp(s, plan, done, crashed, i);
            var id := s.deleted[j].id;
            && t.libs.Keys == s.libs.Keys && |t.deleted| == |s.deleted| && t.deleted[j].id == id
            && (x in t.deleted[j].documents <==> x in s.deleted[j].documents || PublishedBy(plan, done, i, id, x))
            && (Published(plan, done, i + 1, id, x) <==> Published(plan, done, i, id, x) || PublishedBy(plan, done, i, id, x))
  {
  }

  /** A commit adds to a deleted library's documents exactly what the child says
      was published into it before the delete. */
  lemma CommittedDocuments(plan: Plan, proj: State, lines: seq<Line>, crashed: bool, j: nat, x: Option<nat>)
    requires CrashInCrawl(plan) && j < |proj.deleted| && proj.deleted[j].id !in proj.libs
    ensures var s := Committed(plan, proj, lines, crashed);
            && |s.deleted| == |proj.deleted|
            && (x in s.deleted[j].documents <==>
                  x in proj.deleted[j].documents || Published(plan, Done(lines), |plan.ops|, proj.deleted[j].id, x))
  {
    hide CommitOps, Done, Resumed, StillPending, Published;
    CommitOpsDocuments(proj.(pending := StillPending(proj.pending, Resumed(lines))), plan, Done(lines), crashed, |plan.ops|, j, x);
  }
}
