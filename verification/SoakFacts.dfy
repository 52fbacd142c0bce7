/** What the parent makes of a child's report of its searches and vectors:
    `_read_failures`, `_ask_violations` and `check_facts` of
    scripts/knowledge_soak.py.  A library whose vectors this process alone
    could not read is confined; any other complaint is a violation. */
module SoakFacts {
  import opened SoakModel

  const JOURNAL_MAX_JOBS: nat := 24
  const JOURNAL_MAX_BYTES: nat := 16 * 1024 * 1024

  /** An error's text, as far as it is read: Chroma's internal error or not. */
  datatype Fault = Fault(internal: bool)

  datatype Miss = NoVector | PassedOver | QueryFailed(fault: Fault)
  datatype Meaning = NoStore | Found | Missed(miss: Miss)
  datatype Ask = Ask(lib: LibId, hybrid: bool, keyword: bool, meaning: Meaning)

  /** The repair sweep ended with full coverage, or with an error and the
      libraries that failed. */
  datatype Sweep = Full | Broken(failed: map<LibId, Fault>)

  datatype Vectors =
    | Unavailable(error: Option<Fault>)
    | Available(missing: nat, orphans: nat, foreign: nat, healthOk: bool, healthVectors: nat, healthChunks: nat)

  datatype Refused = Refused(problem: bool, found: bool)

  datatype Facts = Facts(
    networkRefused: bool, ftsOk: bool, sweep: Sweep, vectors: map<LibId, Vectors>, collections: set<LibId>,
    asked: seq<Ask>, absent: seq<Refused>,
    journalRows: nat, journalBytes: nat, running: bool, textLeaks: bool, documentLeaks: bool)

  datatype Complaint =
    | Network | KeywordIndex | Coverage | StrayCollection(lib: LibId) | NotFound(lib: LibId) | NoMeaning(lib: LibId)
    | NoVectorFor(lib: LibId) | StillFound(index: nat) | GoneAstray(index: nat)
    | JournalBound | JournalRunning | JournalText | DocumentIndex
    | Vector(lib: LibId) | Survived(lib: LibId)

  predicate FailedToRead(a: Ask) {
    a.meaning.Missed? && a.meaning.miss.QueryFailed? && a.meaning.miss.fault.internal
  }

  /** Libraries whose collection the process could not read. */
  function ReadFailures(f: Facts): set<LibId> {
    (set a | a in f.asked && FailedToRead(a) :: a.lib)
    + (if f.sweep.Broken? then set id | id in f.sweep.failed && f.sweep.failed[id].internal else {})
    + (set id | id in f.vectors && f.vectors[id].Unavailable? && f.vectors[id].error.Some? && f.vectors[id].error.value.internal)
  }

  /** The hybrid search left out what the keyword index returned and the
      approximate index passed over: a ranking matter. */
  predicate RankDropped(a: Ask) {
    !a.hybrid && a.keyword && a.meaning == Missed(PassedOver)
  }

  /** A planted answer is missing in a way no unread collection explains. */
  predicate AskFails(a: Ask) {
    || (!a.hybrid && !RankDropped(a))
    || !a.keyword
    || a.meaning == NoStore
    || a.meaning == Missed(NoVector)
  }

  predicate VectorsBad(v: Vectors) {
    v.Unavailable? || v.missing > 0 || v.orphans > 0 || v.foreign > 0 || !v.healthOk || v.healthVectors != v.healthChunks
  }

  /** The sweep's failure is explained by unread collections alone. */
  predicate SweepExplained(f: Facts) {
    f.sweep.Broken? && f.sweep.failed.Keys != {} && f.sweep.failed.Keys <= ReadFailures(f)
  }

  /** The libraries a complaint about vectors names. */
  function Blamed(f: Facts): set<LibId> {
    (if SweepExplained(f) then f.sweep.failed.Keys else {})
    + (set id | id in f.vectors && VectorsBad(f.vectors[id]))
    + (set a | a in f.asked && a.meaning.Missed? && a.meaning.miss.QueryFailed? :: a.lib)
  }

  /** A complaint that names no library's vectors. */
  predicate Plain(live: set<LibId>, f: Facts) {
    || f.networkRefused || !f.ftsOk
    || (f.sweep.Broken? && !SweepExplained(f))
    || f.collections - live != {}
    || (exists a | a in f.asked :: AskFails(a))
    || (exists r | r in f.absent :: r.problem || r.found)
    || f.journalRows > JOURNAL_MAX_JOBS || f.journalBytes > JOURNAL_MAX_BYTES
    || f.running || f.textLeaks || f.documentLeaks
  }

  /** The library could not be read in this process, and could in the last. */
  predicate Confinable(f: Facts, failedBefore: set<LibId>, tolerate: bool, id: LibId) {
    id in ReadFailures(f) && (id !in failedBefore || tolerate)
  }

  /** Nothing a process could not read goes unnoticed: its library is blamed,
      or the cycle is in violation anyway. */
  lemma UnreadIsBlamed(live: set<LibId>, f: Facts, id: LibId)
    requires id in ReadFailures(f)
    ensures id in Blamed(f) || Plain(live, f)
  {
    if a :| a in f.asked && FailedToRead(a) && a.lib == id {
      assert id in Blamed(f);
    }
  }

  /** One judged cycle, from both sides: without the tolerate flag, what could
      not be read is confined or a violation, and a library that failed in the
      process before too is a violation. */
  lemma JudgedReadFailure(live: set<LibId>, f: Facts, failedBefore: set<LibId>, id: LibId)
    requires id in ReadFailures(f)
    requires !Plain(live, f) && forall b | b in Blamed(f) :: Confinable(f, failedBefore, false, b)
    ensures id in Blamed(f) && id !in failedBefore
  {
    UnreadIsBlamed(live, f, id);
  }

  /** The complaints of a cycle, and per confined library how many a read
      failure explains. */
  class Judge {
    const unreadable: set<LibId>
    const failedBefore: set<LibId>
    const tolerate: bool
    var problems: seq<Complaint>
    var confined: map<LibId, nat>

    constructor (unreadable: set<LibId>, failedBefore: set<LibId>, tolerate: bool)
      ensures this.unreadable == unreadable && this.failedBefore == failedBefore && this.tolerate == tolerate
      ensures problems == [] && confined == map[]
    {
      this.unreadable, this.failedBefore, this.tolerate := unreadable, failedBefore, tolerate;
      problems, confined := [], map[];
    }

    predicate Confines(id: LibId) {
      id in unreadable && (id !in failedBefore || tolerate)
    }

    /** A complaint about one library's vectors. */
    method Vector(id: LibId)
      modifies this`problems, this`confined
      ensures confined.Keys == old(confined).Keys + (if Confines(id) then {id} else {})
      ensures problems == [] <==> old(problems) == [] && Confines(id)
    {
      if id in unreadable && (id !in failedBefore || tolerate) {
        confined := confined[id := if id in confined then confined[id] + 1 else 1];
      } else if id in unreadable {
        problems := problems + [Survived(id)];
      } else {
        problems := problems + [Complaint.Vector(id)];
      }
    }

    method Complain(c: Complaint)
      modifies this`problems
      ensures problems == old(problems) + [c]
    {
      problems := problems + [c];
    }

    /** The same complaint about each of a set of libraries. */
    method VectorAll(ids: set<LibId>)
      modifies this`problems, this`confined
      ensures confined.Keys == old(confined).Keys + set id | id in ids && Confines(id)
      ensures problems == [] <==> old(problems) == [] && forall id | id in ids :: Confines(id)
    {
      var todo := ids;
      while todo != {}
        invariant todo <= ids
        invariant confined.Keys == old(confined).Keys + set id | id in ids - todo && Confines(id)
        invariant problems == [] <==> old(problems) == [] && forall id | id in ids - todo :: Confines(id)
        decreases todo
      {
        var id :| id in todo;
        todo := todo - {id};
        Vector(id);
      }
    }

    method JudgeAsked(asked: seq<Ask>)
      modifies this`problems, this`confined
      ensures confined.Keys == old(confined).Keys
                + set a | a in asked && a.meaning.Missed? && a.meaning.miss.QueryFailed? && Confines(a.lib) :: a.lib
      ensures problems == [] <==>
                && old(problems) == []
                && (forall a | a in asked :: !AskFails(a))
                && (forall a | a in asked && a.meaning.Missed? && a.meaning.miss.QueryFailed? :: Confines(a.lib))
    {
      for i := 0 to |asked|
        invariant confined.Keys == old(confined).Keys
                    + set a | a in asked[..i] && a.meaning.Missed? && a.meaning.miss.QueryFailed? && Confines(a.lib) :: a.lib
        invariant problems == [] <==>
                    && old(problems) == []
                    && (forall a | a in asked[..i] :: !AskFails(a))
                    && (forall a | a in asked[..i] && a.meaning.Missed? && a.meaning.miss.QueryFailed? :: Confines(a.lib))
      {
        assert asked[..i + 1] == asked[..i] + [asked[i]];
        JudgeAsk(asked[i]);
      }
      assert asked[..|asked|] == asked;
    }

    method JudgeAsk(a: Ask)
      modifies this`problems, this`confined
      ensures confined.Keys == old(confined).Keys
                + (if a.meaning.Missed? && a.meaning.miss.QueryFailed? && Confines(a.lib) then {a.lib} else {})
      ensures problems == [] <==>
                old(problems) == [] && !AskFails(a) && (a.meaning.Missed? && a.meaning.miss.QueryFailed? ==> Confines(a.lib))
    {
      if !a.hybrid && !RankDropped(a) {
        Complain(NotFound(a.lib));
      }
      if !a.keyword {
        Complain(NotFound(a.lib));
      }
      match a.meaning
      case NoStore => Complain(NoMeaning(a.lib));
      case Found =>
      case Missed(NoVector) => Complain(NoVectorFor(a.lib));
      case Missed(PassedOver) =>
      case Missed(QueryFailed(_)) => Vector(a.lib);
    }

    method JudgeAbsent(absent: seq<Refused>)
      modifies this`problems
      ensures problems == [] <==> old(problems) == [] && forall r | r in absent :: !r.problem && !r.found
    {
      for i := 0 to |absent|
        invariant problems == [] <==> old(problems) == [] && forall r | r in absent[..i] :: !r.problem && !r.found
      {
        assert absent[..i + 1] == absent[..i] + [absent[i]];
        if absent[i].problem {
          Complain(GoneAstray(i));
        }
        if absent[i].found {
          Complain(StillFound(i));
        }
      }
      assert absent[..|absent|] == absent;
    }

    method JudgeRest(f: Facts)
      modifies this`problems
      ensures problems == [] <==>
                && old(problems) == []
                && f.journalRows <= JOURNAL_MAX_JOBS && f.journalBytes <= JOURNAL_MAX_BYTES
                && !f.running && !f.textLeaks && !f.documentLeaks
    {
      if f.journalRows > JOURNAL_MAX_JOBS || f.journalBytes > JOURNAL_MAX_BYTES {
        Complain(JournalBound);
      }
      if f.running {
        Complain(JournalRunning);
      }
      if f.textLeaks {
        Complain(JournalText);
      }
      if f.documentLeaks {
        Complain(DocumentIndex);
      }
    }

    method JudgeCollections(stray: set<LibId>)
      modifies this`problems
      ensures problems == [] <==> old(problems) == [] && stray == {}
    {
      var todo := stray;
      while todo != {}
        invariant problems == [] <==> old(problems) == [] && todo == stray
        invariant todo <= stray
        decreases todo
      {
        var id :| id in todo;
        todo := todo - {id};
        Complain(StrayCollection(id));
      }
    }

    /** The sweep's failures and each library's vectors. */
    method JudgeVectors(f: Facts)
      requires unreadable == ReadFailures(f)
      modifies this`problems, this`confined
      ensures confined.Keys == old(confined).Keys
                + (if SweepExplained(f) then set id | id in f.sweep.failed.Keys && Confines(id) else {})
                + set id | id in f.vectors && VectorsBad(f.vectors[id]) && Confines(id)
      ensures problems == [] <==>
                && old(problems) == []
                && (f.sweep.Broken? ==> SweepExplained(f) && forall id | id in f.sweep.failed.Keys :: Confines(id))
                && (forall id | id in f.vectors && VectorsBad(f.vectors[id]) :: Confines(id))
    {
      hide VectorsBad, ReadFailures;
      if f.sweep.Broken? {
        if SweepExplained(f) {
          VectorAll(f.sweep.failed.Keys);
        } else {
          Complain(Coverage);
        }
      }
      VectorAll(set id | id in f.vectors && VectorsBad(f.vectors[id]));
    }

    method JudgeStart(f: Facts)
      modifies this`problems
      ensures problems == [] <==> old(problems) == [] && !f.networkRefused && f.ftsOk
    {
      if f.networkRefused {
        Complain(Network);
      }
      if !f.ftsOk {
        Complain(KeywordIndex);
      }
    }
  }

  /** Who is blamed, source by source. */
  lemma BlamedBySource(f: Facts, ok: LibId -> bool)
    ensures (forall id | id in Blamed(f) :: ok(id)) <==>
              && (SweepExplained(f) ==> forall id | id in f.sweep.failed.Keys :: ok(id))
              && (forall id | id in f.vectors && VectorsBad(f.vectors[id]) :: ok(id))
              && (forall a | a in f.asked && a.meaning.Missed? && a.meaning.miss.QueryFailed? :: ok(a.lib))
  {
    hide VectorsBad, SweepExplained;
    if forall id | id in Blamed(f) :: ok(id) {
      forall a | a in f.asked && a.meaning.Missed? && a.meaning.miss.QueryFailed? ensures ok(a.lib) {
        assert a.lib in Blamed(f);
      }
    }
  }

  /* ---- when nothing is reported ---- */

  /** The library could not be read: a search, the sweep or its vectors met
      Chroma's internal error. */
  predicate Unread(f: Facts, id: LibId) {
    || (exists a :: a in f.asked && a.lib == id && a.meaning == Missed(QueryFailed(Fault(true))))
    || (f.sweep.Broken? && id in f.sweep.failed && f.sweep.failed[id] == Fault(true))
    || (id in f.vectors && f.vectors[id] == Unavailable(Some(Fault(true))))
  }

  /** A failure to read it in this process alone, or one to be tolerated. */
  predicate Excused(f: Facts, failedBefore: set<LibId>, tolerate: bool, id: LibId) {
    Unread(f, id) && (tolerate || id !in failedBefore)
  }

  /** The planted answer was found by the words and by the meaning; only the
      approximate index may have passed it over. */
  predicate AskInOrder(a: Ask, excused: bool) {
    match a.meaning
    case NoStore => false
    case Found => a.hybrid && a.keyword
    case Missed(NoVector) => false
    case Missed(PassedOver) => a.keyword
    case Missed(QueryFailed(_)) => a.hybrid && a.keyword && excused
  }

  predicate VectorsInOrder(v: Vectors) {
    match v
    case Unavailable(_) => false
    case Available(missing, orphans, foreign, healthOk, healthVectors, healthChunks) =>
      missing == 0 && orphans == 0 && foreign == 0 && healthOk && healthVectors == healthChunks
  }

  predicate SweepInOrder(f: Facts, failedBefore: set<LibId>, tolerate: bool) {
    match f.sweep
    case Full => true
    case Broken(failed) => failed != map[] && forall id | id in failed :: Excused(f, failedBefore, tolerate, id)
  }

  /** Every part of the report is in order, what could not be read excused. */
  predicate InOrder(live: set<LibId>, f: Facts, failedBefore: set<LibId>, tolerate: bool) {
    && !f.networkRefused && f.ftsOk && f.collections <= live
    && (forall a | a in f.asked :: AskInOrder(a, Excused(f, failedBefore, tolerate, a.lib)))
    && (forall r | r in f.absent :: r == Refused(false, false))
    && SweepInOrder(f, failedBefore, tolerate)
    && (forall id | id in f.vectors :: VectorsInOrder(f.vectors[id]) || Excused(f, failedBefore, tolerate, id))
    && f.journalRows <= JOURNAL_MAX_JOBS && f.journalBytes <= JOURNAL_MAX_BYTES
    && !f.running && !f.textLeaks && !f.documentLeaks
  }

  lemma ExcusedIsConfinable(f: Facts, failedBefore: set<LibId>, tolerate: bool, id: LibId)
    ensures Excused(f, failedBefore, tolerate, id) <==> Confinable(f, failedBefore, tolerate, id)
  {
    if a :| a in f.asked && FailedToRead(a) && a.lib == id {
      assert a.meaning == Missed(QueryFailed(Fault(true)));
    }
    if a :| a in f.asked && a.lib == id && a.meaning == Missed(QueryFailed(Fault(true))) {
      assert FailedToRead(a);
    }
  }

  lemma SweepExact(f: Facts, failedBefore: set<LibId>, tolerate: bool)
    ensures SweepInOrder(f, failedBefore, tolerate) <==>
              (f.sweep.Broken? ==> SweepExplained(f) && forall id | id in f.sweep.failed.Keys :: Confinable(f, failedBefore, tolerate, id))
  {
    hide ReadFailures, Excused;
    forall id ensures Excused(f, failedBefore, tolerate, id) <==> Confinable(f, failedBefore, tolerate, id) {
      ExcusedIsConfinable(f, failedBefore, tolerate, id);
    }
  }

  lemma AskExact(a: Ask, excused: bool)
    ensures AskInOrder(a, excused) <==> !AskFails(a) && (a.meaning.Missed? && a.meaning.miss.QueryFailed? ==> excused)
  {
  }

  lemma VectorsExact(v: Vectors)
    ensures VectorsInOrder(v) <==> !VectorsBad(v)
  {
  }

  lemma AsksExact(f: Facts, excused: LibId -> bool)
    ensures (forall a | a in f.asked :: AskInOrder(a, excused(a.lib))) <==>
              && (forall a | a in f.asked :: !AskFails(a))
              && (forall a | a in f.asked && a.meaning.Missed? && a.meaning.miss.QueryFailed? :: excused(a.lib))
    ensures (forall id | id in f.vectors :: VectorsInOrder(f.vectors[id]) || excused(id)) <==>
              forall id | id in f.vectors && VectorsBad(f.vectors[id]) :: excused(id)
  {
    hide AskInOrder, AskFails, VectorsInOrder, VectorsBad;
    forall a | a in f.asked
      ensures AskInOrder(a, excused(a.lib)) <==> !AskFails(a) && (a.meaning.Missed? && a.meaning.miss.QueryFailed? ==> excused(a.lib)) {
      AskExact(a, excused(a.lib));
    }
    forall id | id in f.vectors ensures VectorsInOrder(f.vectors[id]) <==> !VectorsBad(f.vectors[id]) {
      VectorsExact(f.vectors[id]);
    }
  }

  /** Nothing is a complaint exactly when every part is in order. */
  lemma SilenceExactly(live: set<LibId>, f: Facts, failedBefore: set<LibId>, tolerate: bool)
    ensures !Plain(live, f) && (forall id | id in Blamed(f) :: Confinable(f, failedBefore, tolerate, id))
            <==> InOrder(live, f, failedBefore, tolerate)
  {
    hide Confinable, Excused, ReadFailures, Blamed, SweepInOrder, AskInOrder, AskFails, VectorsInOrder, VectorsBad;
    forall id ensures Excused(f, failedBefore, tolerate, id) <==> Confinable(f, failedBefore, tolerate, id) {
      ExcusedIsConfinable(f, failedBefore, tolerate, id);
    }
    var ok := id => Confinable(f, failedBefore, tolerate, id);
    BlamedBySource(f, ok);
    AsksExact(f, ok);
    SweepExact(f, failedBefore, tolerate);
    assert (forall r | r in f.absent :: r == Refused(false, false)) <==> !exists r | r in f.absent :: r.problem || r.found;
    assert f.collections - live == {} ==> f.collections <= live by {
      assert forall id | id in f.collections :: id in live || id in f.collections - live;
    }
    assert forall a: Ask :: AskInOrder(a, Excused(f, failedBefore, tolerate, a.lib)) == AskInOrder(a, ok(a.lib));
    assert forall id :: Excused(f, failedBefore, tolerate, id) == ok(id);
  }

  /** `check_facts`: what is confined and when nothing is reported, exactly. */
  method CheckFacts(live: set<LibId>, f: Facts, failedBefore: set<LibId>, tolerate: bool)
    returns (problems: seq<Complaint>, confined: map<LibId, nat>)
    ensures confined.Keys == set id | id in Blamed(f) && Confinable(f, failedBefore, tolerate, id)
    ensures problems == [] <==> !Plain(live, f) && forall id | id in Blamed(f) :: Confinable(f, failedBefore, tolerate, id)
    ensures problems == [] <==> InOrder(live, f, failedBefore, tolerate)
  {
    hide AskFails, VectorsBad, ReadFailures, InOrder;
    var j := new Judge(ReadFailures(f), failedBefore, tolerate);
    j.JudgeStart(f);
    j.JudgeVectors(f);
    j.JudgeCollections(f.collections - live);
    j.JudgeAsked(f.asked);
    j.JudgeAbsent(f.absent);
    j.JudgeRest(f);
    problems, confined := j.problems, j.confined;
    BlamedBySource(f, id => Confinable(f, failedBefore, tolerate, id));
    SilenceExactly(live, f, failedBefore, tolerate);
  }
}
