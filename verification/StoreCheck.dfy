/** The parent's check of the published chunks: the part of `check_stores`
    (scripts/knowledge_soak.py) that compares the rows of knowledge_chunks with
    the expected state.  It is exact: nothing is reported just when the active
    rows are each stored page's chunks and each document's current version. */
module StoreCheck {
  import opened SoakModel
  import opened SoakOracle
  import opened SoakStore
  import SoakCommit
  import SoakRefinement

  datatype Chunk = Chunk(id: nat, hash: nat)

  /** A row: of a page of a site (`document` None) or of a document's version. */
  datatype Row = Row(
    lib: LibId, url: nat, chunk: Chunk, document: Option<nat>, version: Option<nat>, active: bool, tombstoned: bool)

  type Key = (LibId, nat)

  datatype Complaint =
    | PageChunksDiffer(lib: LibId, key: nat)
    | DocumentDiffers(lib: LibId, key: nat)
    | StrayPage(lib: LibId, url: nat)
    | StrayDocument(lib: LibId, document: nat)
    | DeletedKeepsRows(lib: LibId)

  predicate Live(r: Row) {
    r.active && !r.tombstoned
  }

  /** The chunks active for a page. */
  function PageChunks(rows: seq<Row>, id: LibId, url: nat): set<Chunk> {
    set r | r in rows && Live(r) && r.document == None && r.lib == id && r.url == url :: r.chunk
  }

  /** The versions of a document's active rows, one for each row. */
  function RowVersions(rows: seq<Row>, id: LibId, document: nat): seq<Option<nat>> {
    if rows == [] then []
    else
      var r := rows[|rows| - 1];
      RowVersions(rows[..|rows| - 1], id, document)
      + (if Live(r) && r.document == Some(document) && r.lib == id then [r.version] else [])
  }

  function RowsOf(rows: seq<Row>, id: LibId): nat {
    if rows == [] then 0
    else RowsOf(rows[..|rows| - 1], id) + (if rows[|rows| - 1].lib == id then 1 else 0)
  }

  function Lookup<V>(m: map<Key, V>, id: LibId, n: nat, none: V): V {
    if (id, n) in m then m[(id, n)] else none
  }

  /** Every row is one of the version, and there are as many as published. */
  predicate Published(versions: seq<Option<nat>>, doc: Doc) {
    doc.chunks == Some(|versions|) && |versions| > 0 && forall i | 0 <= i < |versions| :: versions[i] == doc.versionId
  }

  /* ---- the check ---- */

  method GroupPages(rows: seq<Row>) returns (pages: map<Key, set<Chunk>>)
    ensures forall id, url :: Lookup(pages, id, url, {}) == PageChunks(rows, id, url)
    ensures forall k | k in pages :: pages[k] != {}
  {
    pages := map[];
    for i := 0 to |rows|
      invariant forall id, url :: Lookup(pages, id, url, {}) == PageChunks(rows[..i], id, url)
      invariant forall k | k in pages :: pages[k] != {}
    {
      var r := rows[i];
      ghost var before := pages;
      assert rows[..i + 1] == rows[..i] + [r];
      if Live(r) && r.document == None {
        pages := pages[(r.lib, r.url) := Lookup(pages, r.lib, r.url, {}) + {r.chunk}];
      }
      forall id, url ensures Lookup(pages, id, url, {}) == PageChunks(rows[..i + 1], id, url) {
        assert Lookup(before, id, url, {}) == PageChunks(rows[..i], id, url);
      }
    }
    assert rows[..|rows|] == rows;
  }

  method GroupDocuments(rows: seq<Row>) returns (documents: map<Key, seq<Option<nat>>>)
    ensures forall id, d :: Lookup(documents, id, d, []) == RowVersions(rows, id, d)
    ensures forall k | k in documents :: documents[k] != []
  {
    documents := map[];
    for i := 0 to |rows|
      invariant forall id, d :: Lookup(documents, id, d, []) == RowVersions(rows[..i], id, d)
      invariant forall k | k in documents :: documents[k] != []
    {
      var r := rows[i];
      ghost var before := documents;
      assert rows[..i + 1][..i] == rows[..i];
      if Live(r) && r.document.Some? {
        documents := documents[(r.lib, r.document.value) := Lookup(documents, r.lib, r.document.value, []) + [r.version]];
      }
      forall id, d ensures Lookup(documents, id, d, []) == RowVersions(rows[..i + 1], id, d) {
        assert Lookup(before, id, d, []) == RowVersions(rows[..i], id, d);
      }
    }
    assert rows[..|rows|] == rows;
  }

  ghost predicate PagesAsStored(pages: map<Key, set<Chunk>>, id: LibId, stored: map<nat, nat>,
                                expected: (LibId, nat, nat) -> set<Chunk>) {
    forall k | k in stored :: Lookup(pages, id, k, {}) == expected(id, k, stored[k])
  }

  function PageKeys(id: LibId, stored: map<nat, nat>): set<Key> {
    set k | k in stored :: (id, k)
  }

  /** One library's stored pages, each taken out of the groups and compared. */
  method CheckPages(pages: map<Key, set<Chunk>>, id: LibId, stored: map<nat, nat>, expected: (LibId, nat, nat) -> set<Chunk>)
    returns (rest: map<Key, set<Chunk>>, problems: seq<Complaint>)
    ensures rest == pages - PageKeys(id, stored)
    ensures problems == [] <==> PagesAsStored(pages, id, stored, expected)
  {
    rest, problems := pages, [];
    var todo := stored.Keys;
    while todo != {}
      invariant todo <= stored.Keys
      invariant rest == pages - set k | k in stored && k !in todo :: (id, k)
      invariant problems == [] <==> forall k | k in stored && k !in todo :: Lookup(pages, id, k, {}) == expected(id, k, stored[k])
      decreases todo
    {
      var k :| k in todo;
      var got := Lookup(rest, id, k, {});
      assert got == Lookup(pages, id, k, {});
      rest := rest - {(id, k)};
      todo := todo - {k};
      if got != expected(id, k, stored[k]) {
        problems := problems + [PageChunksDiffer(id, k)];
      }
    }
  }

  ghost predicate DocumentsAsPublished(documents: map<Key, seq<Option<nat>>>, id: LibId, docs: map<nat, Doc>) {
    && (forall k | k in docs && docs[k].documentId.Some? ::
          Published(Lookup(documents, id, docs[k].documentId.value, []), docs[k]))
    && DistinctIds(docs, docs.Keys)
  }

  /** No two documents of a library have one identity. */
  ghost predicate DistinctIds(docs: map<nat, Doc>, among: set<nat>) {
    forall j, k | j in docs && k in docs && j in among && k in among && j != k && docs[j].documentId.Some? ::
      docs[j].documentId != docs[k].documentId
  }

  function DocumentKeys(id: LibId, docs: map<nat, Doc>): set<Key> {
    set k | k in docs && docs[k].documentId.Some? :: (id, docs[k].documentId.value)
  }

  /** The first so many documents are as published, no two of one identity. */
  ghost predicate PublishedAmong(documents: map<Key, seq<Option<nat>>>, id: LibId, docs: map<nat, Doc>, among: set<nat>) {
    && (forall k | k in docs && k in among && docs[k].documentId.Some? ::
          Published(Lookup(documents, id, docs[k].documentId.value, []), docs[k]))
    && DistinctIds(docs, among)
  }

  ghost predicate Taken(docs: map<nat, Doc>, among: set<nat>, d: nat) {
    exists j :: j in docs && j in among && docs[j].documentId == Some(d)
  }

  lemma PublishedOneMore(documents: map<Key, seq<Option<nat>>>, id: LibId, docs: map<nat, Doc>, among: set<nat>, k: nat)
    requires k in docs && k !in among
    ensures PublishedAmong(documents, id, docs, among + {k}) <==>
              && PublishedAmong(documents, id, docs, among)
              && (docs[k].documentId.Some? ==>
                    !Taken(docs, among, docs[k].documentId.value)
                    && Published(Lookup(documents, id, docs[k].documentId.value, []), docs[k]))
  {
    hide Published;
    if docs[k].documentId.Some? && PublishedAmong(documents, id, docs, among + {k}) {
      assert forall j | j in docs && j in among :: docs[j].documentId != docs[k].documentId;
    }
  }

  /** One library's documents.  A second document of the same identity finds
      the rows already taken, and is reported. */
  method CheckDocuments(documents: map<Key, seq<Option<nat>>>, id: LibId, docs: map<nat, Doc>)
    returns (rest: map<Key, seq<Option<nat>>>, problems: seq<Complaint>)
    ensures rest == documents - DocumentKeys(id, docs)
    ensures problems == [] <==> DocumentsAsPublished(documents, id, docs)
  {
    hide PublishedAmong;
    rest, problems := documents, [];
    var todo := docs.Keys;
    NothingPublished(documents, id, docs);
    while todo != {}
      invariant todo <= docs.Keys
      invariant rest == documents - set k | k in docs && k !in todo && docs[k].documentId.Some? :: (id, docs[k].documentId.value)
      invariant problems == [] <==> PublishedAmong(documents, id, docs, docs.Keys - todo)
      decreases todo
    {
      var k :| k in todo;
      PublishedOneMore(documents, id, docs, docs.Keys - todo, k);
      ghost var among := docs.Keys - todo;
      assert docs.Keys - (todo - {k}) == among + {k};
      todo := todo - {k};
      if docs[k].documentId.Some? {
        var d := docs[k].documentId.value;
        var versions := Lookup(rest, id, d, []);
        assert versions == if Taken(docs, among, d) then [] else Lookup(documents, id, d, []);
        rest := rest - {(id, d)};
        if !(docs[k].chunks == Some(|versions|) && versions != [] && forall i | 0 <= i < |versions| :: versions[i] == docs[k].versionId) {
          problems := problems + [DocumentDiffers(id, k)];
        }
      }
    }
    assert docs.Keys - {} == docs.Keys;
    AllPublished(documents, id, docs);
  }

  lemma NothingPublished(documents: map<Key, seq<Option<nat>>>, id: LibId, docs: map<nat, Doc>)
    ensures PublishedAmong(documents, id, docs, docs.Keys - docs.Keys)
  {
  }

  lemma AllPublished(documents: map<Key, seq<Option<nat>>>, id: LibId, docs: map<nat, Doc>)
    ensures PublishedAmong(documents, id, docs, docs.Keys) <==> DocumentsAsPublished(documents, id, docs)
  {
  }

  /* ---- the whole check ---- */

  /** Every stored page's chunks are active, and no others of that page. */
  ghost predicate PagesExact(rows: seq<Row>, s: State, expected: (LibId, nat, nat) -> set<Chunk>) {
    forall id, k | id in s.libs && k in s.libs[id].stored :: PageChunks(rows, id, k) == expected(id, k, s.libs[id].stored[k])
  }

  /** Every document has its published number of active rows, all of its
      current version. */
  ghost predicate DocumentsExact(rows: seq<Row>, s: State) {
    forall id, k | id in s.libs && k in s.libs[id].docs && s.libs[id].docs[k].documentId.Some? ::
      AtVersion(RowVersions(rows, id, s.libs[id].docs[k].documentId.value), s.libs[id].docs[k])
  }

  predicate AtVersion(versions: seq<Option<nat>>, doc: Doc) {
    doc.chunks == Some(|versions|) && forall i | 0 <= i < |versions| :: versions[i] == doc.versionId
  }

  /** The row is of a stored page or of a known document of a live library. */
  ghost predicate Accounted(r: Row, s: State) {
    && r.lib in s.libs
    && if r.document.None? then r.url in s.libs[r.lib].stored
       else (r.lib, r.document.value) in DocumentKeys(r.lib, s.libs[r.lib].docs)
  }

  /** The active rows are exactly what the projected state says. */
  ghost predicate RowsExact(rows: seq<Row>, s: State, expected: (LibId, nat, nat) -> set<Chunk>) {
    && PagesExact(rows, s, expected) && DocumentsExact(rows, s)
    && (forall r | r in rows && Live(r) :: Accounted(r, s))
    && (forall r, i | r in rows && 0 <= i < |s.deleted| :: r.lib != s.deleted[i].id)
  }

  /** Documents with an identity have distinct ones and at least one chunk. */
  ghost predicate Countable(s: State) {
    forall id | id in s.libs :: DistinctIds(s.libs[id].docs, s.libs[id].docs.Keys) && NoneEmpty(s.libs[id].docs)
  }

  ghost predicate NoneEmpty(docs: map<nat, Doc>) {
    forall k | k in docs && docs[k].documentId.Some? :: docs[k].chunks != Some(0)
  }

  function AllPageKeys(libs: map<LibId, Library>, among: set<LibId>): set<Key> {
    set id, k | id in libs && id in among && k in libs[id].stored :: (id, k)
  }

  function AllDocumentKeys(libs: map<LibId, Library>, among: set<LibId>): set<Key> {
    set id, k | id in libs && id in among && k in libs[id].docs && libs[id].docs[k].documentId.Some? ::
      (id, libs[id].docs[k].documentId.value)
  }

  /** The libraries' pages and documents; what is left in the groups is of none
      of them. */
  method CheckLibraries(pages: map<Key, set<Chunk>>, documents: map<Key, seq<Option<nat>>>, libs: map<LibId, Library>,
                        expected: (LibId, nat, nat) -> set<Chunk>)
    returns (stray: map<Key, set<Chunk>>, unknown: map<Key, seq<Option<nat>>>, problems: seq<Complaint>)
    ensures stray == pages - AllPageKeys(libs, libs.Keys) && unknown == documents - AllDocumentKeys(libs, libs.Keys)
    ensures problems == [] <==>
              forall id | id in libs ::
                PagesAsStored(pages, id, libs[id].stored, expected) && DocumentsAsPublished(documents, id, libs[id].docs)
  {
    stray, unknown, problems := pages, documents, [];
    var todo := libs.Keys;
    while todo != {}
      invariant todo <= libs.Keys
      invariant stray == pages - AllPageKeys(libs, libs.Keys - todo)
      invariant unknown == documents - AllDocumentKeys(libs, libs.Keys - todo)
      invariant problems == [] <==>
                  forall id | id in libs && id !in todo ::
                    PagesAsStored(pages, id, libs[id].stored, expected) && DocumentsAsPublished(documents, id, libs[id].docs)
      decreases todo
    {
      var id :| id in todo;
      SamePages(pages, stray, id, libs[id].stored, expected);
      SameDocuments(documents, unknown, id, libs[id].docs);
      KeysSplit(libs, libs.Keys - todo, id);
      assert libs.Keys - (todo - {id}) == libs.Keys - todo + {id};
      hide PagesAsStored, DocumentsAsPublished, AllPageKeys, AllDocumentKeys, PageKeys, DocumentKeys;
      var more, others;
      stray, more := CheckPages(stray, id, libs[id].stored, expected);
      unknown, others := CheckDocuments(unknown, id, libs[id].docs);
      problems := problems + more + others;
      todo := todo - {id};
    }
    assert libs.Keys - {} == libs.Keys;
  }

  lemma KeysSplit(libs: map<LibId, Library>, among: set<LibId>, id: LibId)
    requires id in libs
    ensures AllPageKeys(libs, among + {id}) == AllPageKeys(libs, among) + PageKeys(id, libs[id].stored)
    ensures AllDocumentKeys(libs, among + {id}) == AllDocumentKeys(libs, among) + DocumentKeys(id, libs[id].docs)
  {
  }

  lemma SamePages(pages: map<Key, set<Chunk>>, stray: map<Key, set<Chunk>>, id: LibId,
                  stored: map<nat, nat>, expected: (LibId, nat, nat) -> set<Chunk>)
    requires forall k: nat :: Lookup(stray, id, k, {}) == Lookup(pages, id, k, {})
    ensures PagesAsStored(stray, id, stored, expected) == PagesAsStored(pages, id, stored, expected)
  {
  }

  lemma SameDocuments(documents: map<Key, seq<Option<nat>>>, unknown: map<Key, seq<Option<nat>>>,
                      id: LibId, docs: map<nat, Doc>)
    requires forall d: nat :: Lookup(unknown, id, d, []) == Lookup(documents, id, d, [])
    ensures DocumentsAsPublished(unknown, id, docs) == DocumentsAsPublished(documents, id, docs)
  {
  }

  method StrayPages(stray: map<Key, set<Chunk>>) returns (problems: seq<Complaint>)
    ensures problems == [] <==> stray == map[]
  {
    problems := [];
    var todo := stray.Keys;
    while todo != {}
      invariant problems == [] <==> todo == stray.Keys
      invariant todo <= stray.Keys
      decreases todo
    {
      var key :| key in todo;
      todo := todo - {key};
      problems := problems + [StrayPage(key.0, key.1)];
    }
  }

  method StrayDocuments(unknown: map<Key, seq<Option<nat>>>) returns (problems: seq<Complaint>)
    ensures problems == [] <==> unknown == map[]
  {
    problems := [];
    var todo := unknown.Keys;
    while todo != {}
      invariant problems == [] <==> todo == unknown.Keys
      invariant todo <= unknown.Keys
      decreases todo
    {
      var key :| key in todo;
      todo := todo - {key};
      problems := problems + [StrayDocument(key.0, key.1)];
    }
  }

  lemma {:induction false} RowsOfZero(rows: seq<Row>, id: LibId)
    ensures RowsOf(rows, id) == 0 <==> forall r | r in rows :: r.lib != id
  {
    if rows != [] {
      RowsOfZero(rows[..|rows| - 1], id);
      assert rows == rows[..|rows| - 1] + [rows[|rows| - 1]];
    }
  }

  method KeptRows(rows: seq<Row>, deleted: seq<Gone>) returns (problems: seq<Complaint>)
    ensures problems == [] <==> forall r, i | r in rows && 0 <= i < |deleted| :: r.lib != deleted[i].id
  {
    problems := [];
    for n := 0 to |deleted|
      invariant problems == [] <==> forall r, i | r in rows && 0 <= i < n :: r.lib != deleted[i].id
    {
      RowsOfZero(rows, deleted[n].id);
      if RowsOf(rows, deleted[n].id) > 0 {
        problems := problems + [DeletedKeepsRows(deleted[n].id)];
      }
    }
  }

  /** The check of the chunks: it reports nothing exactly when the rows are as
      projected, every document has an identity of its own, and none was
      published empty. */
  method CheckChunks(rows: seq<Row>, s: State, expected: (LibId, nat, nat) -> set<Chunk>)
    returns (problems: seq<Complaint>)
    ensures problems == [] <==> RowsExact(rows, s, expected) && Countable(s)
  {
    hide RowsExact, Countable, PagesAsStored, DocumentsAsPublished, AllPageKeys, AllDocumentKeys, PageChunks, RowVersions;
    var pages := GroupPages(rows);
    var documents := GroupDocuments(rows);
    var stray, unknown, differ := CheckLibraries(pages, documents, s.libs, expected);
    var strayPages := StrayPages(stray);
    var strayDocuments := StrayDocuments(unknown);
    var kept := KeptRows(rows, s.deleted);
    problems := differ + strayPages + strayDocuments + kept;
    LibrariesExact(rows, s, expected, pages, documents);
    NothingStray(rows, s, pages, documents);
    ExactParts(rows, s, expected);
  }

  ghost predicate AllAccounted(rows: seq<Row>, s: State) {
    forall r | r in rows && Live(r) :: Accounted(r, s)
  }

  lemma ExactParts(rows: seq<Row>, s: State, expected: (LibId, nat, nat) -> set<Chunk>)
    ensures RowsExact(rows, s, expected) <==>
              && PagesExact(rows, s, expected) && DocumentsExact(rows, s) && AllAccounted(rows, s)
              && (forall r, i | r in rows && 0 <= i < |s.deleted| :: r.lib != s.deleted[i].id)
  {
  }

  ghost predicate Grouped(rows: seq<Row>, pages: map<Key, set<Chunk>>, documents: map<Key, seq<Option<nat>>>) {
    && (forall id, url :: Lookup(pages, id, url, {}) == PageChunks(rows, id, url))
    && (forall id, d :: Lookup(documents, id, d, []) == RowVersions(rows, id, d))
    && (forall k | k in pages :: pages[k] != {})
    && (forall k | k in documents :: documents[k] != [])
  }

  lemma LibrariesExact(rows: seq<Row>, s: State, expected: (LibId, nat, nat) -> set<Chunk>,
                       pages: map<Key, set<Chunk>>, documents: map<Key, seq<Option<nat>>>)
    requires Grouped(rows, pages, documents)
    ensures (forall id | id in s.libs ::
               PagesAsStored(pages, id, s.libs[id].stored, expected) && DocumentsAsPublished(documents, id, s.libs[id].docs))
            <==> PagesExact(rows, s, expected) && DocumentsExact(rows, s) && Countable(s)
  {
    hide PageChunks, RowVersions, DistinctIds;
    if PagesExact(rows, s, expected) && DocumentsExact(rows, s) && Countable(s) {
      forall id | id in s.libs ensures DocumentsAsPublished(documents, id, s.libs[id].docs) {
        var docs := s.libs[id].docs;
        forall k | k in docs && docs[k].documentId.Some?
          ensures Published(Lookup(documents, id, docs[k].documentId.value, []), docs[k]) {
          assert AtVersion(RowVersions(rows, id, docs[k].documentId.value), docs[k]);
        }
      }
    }
    if forall id | id in s.libs :: PagesAsStored(pages, id, s.libs[id].stored, expected) && DocumentsAsPublished(documents, id, s.libs[id].docs) {
      forall id | id in s.libs ensures NoneEmpty(s.libs[id].docs) {
        assert DocumentsAsPublished(documents, id, s.libs[id].docs);
      }
    }
  }

  lemma {:induction false} VersionsNone(rows: seq<Row>, id: LibId, d: nat)
    ensures RowVersions(rows, id, d) == [] <==> forall r | r in rows :: !(Live(r) && r.lib == id && r.document == Some(d))
  {
    if rows != [] {
      VersionsNone(rows[..|rows| - 1], id, d);
      assert rows == rows[..|rows| - 1] + [rows[|rows| - 1]];
    }
  }

  lemma PageGroups(rows: seq<Row>, pages: map<Key, set<Chunk>>, k: Key)
    requires Lookup(pages, k.0, k.1, {}) == PageChunks(rows, k.0, k.1) && (k in pages ==> pages[k] != {})
    ensures k in pages <==> exists r :: r in rows && Live(r) && r.document == None && r.lib == k.0 && r.url == k.1
  {
    if k in pages {
      var c :| c in pages[k];
      assert c in PageChunks(rows, k.0, k.1);
    }
    if r :| r in rows && Live(r) && r.document == None && r.lib == k.0 && r.url == k.1 {
      assert r.chunk in PageChunks(rows, k.0, k.1);
    }
  }

  lemma DocumentGroups(rows: seq<Row>, documents: map<Key, seq<Option<nat>>>, k: Key)
    requires Lookup(documents, k.0, k.1, []) == RowVersions(rows, k.0, k.1) && (k in documents ==> documents[k] != [])
    ensures k in documents <==> exists r :: r in rows && Live(r) && r.lib == k.0 && r.document == Some(k.1)
  {
    VersionsNone(rows, k.0, k.1);
  }

  /** Nothing is left in the groups just when every active row is accounted
      for. */
  lemma NothingStray(rows: seq<Row>, s: State, pages: map<Key, set<Chunk>>, documents: map<Key, seq<Option<nat>>>)
    requires Grouped(rows, pages, documents)
    ensures pages - AllPageKeys(s.libs, s.libs.Keys) == map[] && documents - AllDocumentKeys(s.libs, s.libs.Keys) == map[]
            <==> AllAccounted(rows, s)
  {
    var stray, unknown := pages - AllPageKeys(s.libs, s.libs.Keys), documents - AllDocumentKeys(s.libs, s.libs.Keys);
    hide PageChunks, RowVersions;
    if stray == map[] && unknown == map[] {
      forall r | r in rows && Live(r) ensures Accounted(r, s) {
        if r.document.None? {
          PageGroups(rows, pages, (r.lib, r.url));
          assert (r.lib, r.url) !in stray;
        } else {
          DocumentGroups(rows, documents, (r.lib, r.document.value));
          assert (r.lib, r.document.value) !in unknown;
        }
      }
    }
    if AllAccounted(rows, s) {
      forall k | k in pages ensures k in AllPageKeys(s.libs, s.libs.Keys) {
        PageGroups(rows, pages, k);
        var r :| r in rows && Live(r) && r.document == None && r.lib == k.0 && r.url == k.1;
        assert Accounted(r, s);
      }
      forall k | k in documents ensures k in AllDocumentKeys(s.libs, s.libs.Keys) {
        DocumentGroups(rows, documents, k);
        var r :| r in rows && Live(r) && r.lib == k.0 && r.document == Some(k.1);
        assert Accounted(r, s);
      }
      assert stray == map[] && unknown == map[];
    }
  }

  /* ---- what a clean check means for the stores ---- */

  /** The rows are what the product's stores hold, nothing else active. */
  ghost predicate Holds(rows: seq<Row>, store: Store, expected: (LibId, nat, nat) -> set<Chunk>) {
    && (forall id, k | id in store && k in store[id].pages :: PageChunks(rows, id, k) == expected(id, k, store[id].pages[k]))
    && (forall id, d | id in store && d in store[id].docs :: RowsAtVersion(RowVersions(rows, id, d), store[id].docs[d]))
    && (forall r | r in rows && Live(r) :: Kept(r, store))
  }

  predicate RowsAtVersion(versions: seq<Option<nat>>, row: DocRow) {
    |versions| == row.chunks && forall i | 0 <= i < |versions| :: versions[i] == Some(row.versionId)
  }

  predicate Kept(r: Row, store: Store) {
    && r.lib in store
    && if r.document.None? then r.url in store[r.lib].pages else r.document.value in store[r.lib].docs
  }

  /** No published document is empty. */
  ghost predicate ChunksEverywhere(store: Store) {
    forall id, d | id in store && d in store[id].docs :: store[id].docs[d].chunks > 0
  }

  ghost predicate NoneOfDeleted(rows: seq<Row>, s: State) {
    forall r, i | r in rows && 0 <= i < |s.deleted| :: r.lib != s.deleted[i].id
  }

  lemma LibOfStore(s: State, store: Store, id: LibId)
    requires Agrees(s, store)
    ensures id in store <==> id in s.libs
    ensures id in store ==> LibAgrees(s.libs[id], store[id])
  {
    hide LibAgrees;
  }

  /** While the projection agrees with the stores, its documents' identities
      are distinct, so the check is clean exactly when the rows are what the
      stores hold, no published document is empty, and deleted libraries keep
      no row.  A document published with no chunks is always reported. */
  lemma CleanCheck(rows: seq<Row>, s: State, store: Store, expected: (LibId, nat, nat) -> set<Chunk>)
    requires Agrees(s, store)
    ensures RowsExact(rows, s, expected) && Countable(s)
            <==> Holds(rows, store, expected) && ChunksEverywhere(store) && NoneOfDeleted(rows, s)
  {
    AgreeingPages(rows, s, store, expected);
    AgreeingDocuments(rows, s, store);
    AgreeingCounts(s, store);
    forall r | r in rows && Live(r) ensures Accounted(r, s) <==> Kept(r, store) {
      AgreeingRow(r, s, store);
    }
    hide PagesExact, DocumentsExact, Countable, Agrees, Accounted, Kept, PageChunks, RowVersions, RowsAtVersion;
  }

  const ONE_LIBRARY := LibId(1, 0)

  /** One stored page, and one document published with no chunks. */
  function EmptyDocumentState(): State {
    NEW_STATE.(
      libs := map[ONE_LIBRARY := Library(map[1 := 1], map[1 := 1], map[1 := Doc(1, Some(5), Some(6), Some(0))], 2, 2)],
      nextLib := 1)
  }

  function EmptyDocumentStore(): Store {
    map[ONE_LIBRARY := Shelf(map[1 := 1], map[5 := DocRow(1, 1, 6, 0)])]
  }

  lemma EmptyDocumentAgrees()
    ensures Agrees(EmptyDocumentState(), EmptyDocumentStore())
  {
    var lib, shelf := EmptyDocumentState().libs[ONE_LIBRARY], EmptyDocumentStore()[ONE_LIBRARY];
    assert 1 in lib.stored;
    assert LibAgrees(lib, shelf);
  }

  lemma EmptyDocumentHolds(rows: seq<Row>, expected: (LibId, nat, nat) -> set<Chunk>)
    requires rows == [Row(ONE_LIBRARY, 1, Chunk(1, 1), None, None, true, false)]
    requires forall id, k, v :: expected(id, k, v) == {Chunk(k, v)}
    ensures Holds(rows, EmptyDocumentStore(), expected)
  {
    var store := EmptyDocumentStore();
    assert rows[0] in rows;
    assert PageChunks(rows, ONE_LIBRARY, 1) == {Chunk(1, 1)};
    VersionsNone(rows, ONE_LIBRARY, 5);
    hide PageChunks, RowVersions;
  }

  /** Rows exactly as the stores hold them, and yet reported: a document was
      published with no chunks. */
  lemma EmptyDocumentReported(expected: (LibId, nat, nat) -> set<Chunk>)
    returns (rows: seq<Row>, s: State, store: Store)
    requires forall id, k, v :: expected(id, k, v) == {Chunk(k, v)}
    ensures Agrees(s, store) && Holds(rows, store, expected) && NoneOfDeleted(rows, s)
    ensures !(RowsExact(rows, s, expected) && Countable(s))
  {
    hide Agrees, Holds, RowsExact, Countable;
    rows := [Row(ONE_LIBRARY, 1, Chunk(1, 1), None, None, true, false)];
    s, store := EmptyDocumentState(), EmptyDocumentStore();
    EmptyDocumentAgrees();
    EmptyDocumentHolds(rows, expected);
    CleanCheck(rows, s, store, expected);
    assert store[ONE_LIBRARY].docs[5].chunks == 0;
  }

  lemma AgreeingRow(r: Row, s: State, store: Store)
    requires Agrees(s, store)
    ensures Accounted(r, s) <==> Kept(r, store)
  {
    LibOfStore(s, store, r.lib);
    hide Agrees;
    if r.lib in store && r.document.Some? {
      var lib, shelf, d := s.libs[r.lib], store[r.lib], r.document.value;
      if d in shelf.docs {
        assert KnownDocument(lib.docs, d, shelf.docs[d]);
      }
      if k :| k in lib.docs && lib.docs[k].documentId == Some(d) {
        assert RowOf(shelf.docs, k, lib.docs[k]);
      }
    }
  }

  lemma AgreeingPages(rows: seq<Row>, s: State, store: Store, expected: (LibId, nat, nat) -> set<Chunk>)
    requires Agrees(s, store)
    ensures PagesExact(rows, s, expected) <==>
              forall id, k | id in store && k in store[id].pages :: PageChunks(rows, id, k) == expected(id, k, store[id].pages[k])
  {
    forall id ensures (id in store <==> id in s.libs) && (id in store ==> store[id].pages == s.libs[id].stored) {
      LibOfStore(s, store, id);
    }
    hide Agrees, PageChunks;
  }

  lemma AgreeingDocuments(rows: seq<Row>, s: State, store: Store)
    requires Agrees(s, store)
    ensures DocumentsExact(rows, s) <==>
              forall id, d | id in store && d in store[id].docs :: RowsAtVersion(RowVersions(rows, id, d), store[id].docs[d])
  {
    forall id ensures (id in store <==> id in s.libs) && (id in store ==> LibAgrees(s.libs[id], store[id])) {
      LibOfStore(s, store, id);
    }
    hide Agrees, RowVersions;
    if DocumentsExact(rows, s) {
      forall id, d | id in store && d in store[id].docs ensures RowsAtVersion(RowVersions(rows, id, d), store[id].docs[d]) {
        assert KnownDocument(s.libs[id].docs, d, store[id].docs[d]);
        var k := store[id].docs[d].key;
        assert RowOf(store[id].docs, k, s.libs[id].docs[k]);
        assert AtVersion(RowVersions(rows, id, d), s.libs[id].docs[k]);
      }
    }
    if forall id, d | id in store && d in store[id].docs :: RowsAtVersion(RowVersions(rows, id, d), store[id].docs[d]) {
      forall id, k | id in s.libs && k in s.libs[id].docs && s.libs[id].docs[k].documentId.Some?
        ensures AtVersion(RowVersions(rows, id, s.libs[id].docs[k].documentId.value), s.libs[id].docs[k]) {
        assert RowOf(store[id].docs, k, s.libs[id].docs[k]);
        var d := s.libs[id].docs[k].documentId.value;
        assert RowsAtVersion(RowVersions(rows, id, d), store[id].docs[d]);
      }
    }
  }

  lemma AgreeingCounts(s: State, store: Store)
    requires Agrees(s, store)
    ensures Countable(s) <==> ChunksEverywhere(store)
  {
    forall id ensures (id in store <==> id in s.libs) && (id in store ==> LibAgrees(s.libs[id], store[id])) {
      LibOfStore(s, store, id);
    }
    hide Agrees;
    forall id | id in s.libs ensures DistinctIds(s.libs[id].docs, s.libs[id].docs.Keys) {
      var docs := s.libs[id].docs;
      forall j, k | j in docs && k in docs && j != k && docs[j].documentId.Some? ensures docs[j].documentId != docs[k].documentId {
        assert RowOf(store[id].docs, j, docs[j]) && RowOf(store[id].docs, k, docs[k]);
      }
    }
    if Countable(s) {
      forall id, d | id in store && d in store[id].docs ensures store[id].docs[d].chunks > 0 {
        assert KnownDocument(s.libs[id].docs, d, store[id].docs[d]);
        var k := store[id].docs[d].key;
        assert RowOf(store[id].docs, k, s.libs[id].docs[k]) && NoneEmpty(s.libs[id].docs);
      }
    }
    if ChunksEverywhere(store) {
      forall id | id in s.libs ensures NoneEmpty(s.libs[id].docs) {
        forall k | k in s.libs[id].docs && s.libs[id].docs[k].documentId.Some? ensures s.libs[id].docs[k].chunks != Some(0) {
          assert RowOf(store[id].docs, k, s.libs[id].docs[k]);
        }
      }
    }
  }

  /** In every run, after any crashes and resumes: a cycle whose child was not
      killed is clean of chunk problems exactly when its rows are what the
      stores then hold, nothing in them is empty, and deleted libraries keep no
      row. */
  lemma JudgedCycleClean(args: Args, steps: seq<SoakRefinement.Step>, next: SoakRefinement.Step,
                         rows: seq<Row>, expected: (LibId, nat, nat) -> set<Chunk>)
    requires args.pages >= 1 && SoakRefinement.Possible(args, steps + [next])
    requires !Killed(Planned(args, |steps| + 1, next.final, next.probe, SoakRefinement.Run(args, steps).0, next.draws).0, next.choices)
    ensures var (s, store) := SoakRefinement.Run(args, steps + [next]);
            RowsExact(rows, s, expected) && Countable(s)
            <==> Holds(rows, store, expected) && ChunksEverywhere(store) && NoneOfDeleted(rows, s)
  {
    hide SoakRefinement.Run, SoakRefinement.Possible, RowsExact, Countable, Holds, ChunksEverywhere, NoneOfDeleted, Agrees, Planned, Killed;
    hide SoakRefinement.Stored, SoakCommit.Problems, Printed;
    SoakRefinement.NextCycle(args, steps, next);
    var (s, store) := SoakRefinement.Run(args, steps + [next]);
    CleanCheck(rows, s, store, expected);
  }

  /* ---- which rows count ---- */

  lemma {:induction false} VersionsAppend(a: seq<Row>, b: seq<Row>, id: LibId, d: nat)
    ensures RowVersions(a + b, id, d) == RowVersions(a, id, d) + RowVersions(b, id, d)
  {
    if b == [] {
      assert a + b == a;
    } else {
      VersionsAppend(a, b[..|b| - 1], id, d);
      assert (a + b)[..|a + b| - 1] == a + b[..|b| - 1];
    }
  }

  lemma DeadRowGroups(a: seq<Row>, r: Row, b: seq<Row>, id: LibId, n: nat)
    requires !r.active || r.tombstoned
    ensures PageChunks(a + [r] + b, id, n) == PageChunks(a + b, id, n) && RowVersions(a + [r] + b, id, n) == RowVersions(a + b, id, n)
  {
    VersionsAppend(a + [r], b, id, n);
    VersionsAppend(a, b, id, n);
    assert (a + [r])[..|a|] == a;
    assert forall x :: x in a + [r] + b <==> x in a + b || x == r;
  }

  /** A row that is inactive or tombstoned changes nothing, wherever it stands,
      but that its library must not have been deleted; any other of a library
      that is not live is always reported. */
  lemma RowsThatCount(a: seq<Row>, r: Row, b: seq<Row>, s: State, expected: (LibId, nat, nat) -> set<Chunk>)
    ensures !r.active || r.tombstoned ==>
              (RowsExact(a + [r] + b, s, expected)
               <==> RowsExact(a + b, s, expected) && forall i | 0 <= i < |s.deleted| :: s.deleted[i].id != r.lib)
    ensures r.active && !r.tombstoned && r.lib !in s.libs ==> !RowsExact(a + [r] + b, s, expected)
  {
    hide PageChunks, RowVersions, AtVersion, Accounted;
    var all := a + [r] + b;
    assert forall x :: x in all <==> x in a + b || x == r;
    if !r.active || r.tombstoned {
      forall id, n ensures PageChunks(all, id, n) == PageChunks(a + b, id, n) && RowVersions(all, id, n) == RowVersions(a + b, id, n) {
        DeadRowGroups(a, r, b, id, n);
      }
    } else if r.lib !in s.libs {
      NotAccounted(r, s);
    }
  }

  lemma NotAccounted(r: Row, s: State)
    requires r.lib !in s.libs
    ensures !Accounted(r, s)
  {
  }
}
