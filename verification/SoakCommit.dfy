/** How the parent takes a child's report back: `_commit` and
    `_crawl_outcome` of scripts/knowledge_soak.py. */
module SoakCommit {
  import opened SoakModel

  datatype Status = Completed | Partial | Failed | Running

  /** One operation's result as the child printed it.  The printed object is
      read key by key, so a missing key is a `None`, `false` or absent entry. */
  datatype Result = Result(
    status: Option<Status>, pages: map<nat, Status>,
    ok: bool, documentId: Option<nat>, versionId: Option<nat>, chunks: Option<nat>,
    deleted: bool, provenanceRemoved: bool)

  datatype Line = OpLine(index: nat, result: Result) | ResumeLine(job: Job, result: Result)

  datatype Problem =
    | NotResumed(job: Job)
    | NotRun(index: nat)
    | DocumentRefused(index: nat)
    | DeleteIncomplete(index: nat)
    | CrawlEnded(job: Job, got: Option<Status>, expected: Status)
    | PageEnded(job: Job, no: nat, got: Option<Status>, expected: Status)

  /** The last line of each operation, as the dictionary keeps it. */
  function Done(lines: seq<Line>): map<nat, Result> {
    if lines == [] then map[]
    else
      var before := Done(lines[..|lines| - 1]);
      match lines[|lines| - 1]
      case OpLine(i, r) => before[i := r]
      case ResumeLine(_, _) => before
  }

  function Resumed(lines: seq<Line>): map<Job, Result> {
    if lines == [] then map[]
    else
      var before := Resumed(lines[..|lines| - 1]);
      match lines[|lines| - 1]
      case OpLine(_, _) => before
      case ResumeLine(job, r) => before[job := r]
  }

  function Failing(pages: seq<PageSpec>): set<nat> {
    set p | p in pages && p.fail :: p.no
  }

  function WantedStatus(c: Crawl): Status {
    if Failing(c.pages) != {} then Partial else Completed
  }

  function WantedPage(c: Crawl, p: PageSpec): Status {
    if p.no in Failing(c.pages) then Failed else Completed
  }

  function Get<K, V>(m: map<K, V>, k: K): Option<V> {
    if k in m then Some(m[k]) else None
  }

  function PageProblems(c: Crawl, r: Result, n: nat): seq<Problem>
    requires n <= |c.pages|
  {
    if n == 0 then []
    else
      var p := c.pages[n - 1];
      PageProblems(c, r, n - 1)
      + (if Get(r.pages, p.no) != Some(WantedPage(c, p))
         then [PageEnded(c.job, p.no, Get(r.pages, p.no), WantedPage(c, p))] else [])
  }

  function CrawlOutcome(c: Crawl, r: Result): seq<Problem> {
    (if r.status != Some(WantedStatus(c)) then [CrawlEnded(c.job, r.status, WantedStatus(c))] else [])
    + PageProblems(c, r, |c.pages|)
  }

  function ResumeProblems(resume: seq<Crawl>, resumed: map<Job, Result>): seq<Problem> {
    if resume == [] then []
    else
      var c := resume[|resume| - 1];
      ResumeProblems(resume[..|resume| - 1], resumed)
      + (if c.job in resumed then CrawlOutcome(c, resumed[c.job]) else [NotResumed(c.job)])
  }

  function StillPending(pending: seq<Crawl>, resumed: map<Job, Result>): seq<Crawl> {
    if pending == [] then []
    else
      StillPending(pending[..|pending| - 1], resumed)
      + (if pending[|pending| - 1].job in resumed then [] else [pending[|pending| - 1]])
  }

  /** The identities of a document that was published: into its library, or,
      when the same cycle deleted that library, among what the delete must take. */
  function FillDocument(s: State, id: LibId, key: nat, r: Result): State {
    if id in s.libs && key in s.libs[id].docs then
      var lib := s.libs[id];
      var doc := lib.docs[key].(documentId := r.documentId, versionId := r.versionId, chunks := r.chunks);
      s.(libs := s.libs[id := lib.(docs := lib.docs[key := doc])])
    else
      s.(deleted := AppendDocument(s.deleted, id, r.documentId))
  }

  function AppendDocument(deleted: seq<Gone>, id: LibId, document: Option<nat>): seq<Gone> {
    seq(|deleted|, i requires 0 <= i < |deleted| =>
      if deleted[i].id == id then deleted[i].(documents := deleted[i].documents + [document]) else deleted[i])
  }

  predicate CrashedAt(plan: Plan, crashed: bool, i: nat) {
    crashed && plan.crash.Some? && plan.crash.value.opIndex == i
  }

  /** A planned crash is inside one of the plan's crawls. */
  predicate CrashInCrawl(plan: Plan) {
    plan.crash.Some? ==> plan.crash.value.opIndex < |plan.ops| && plan.ops[plan.crash.value.opIndex].CrawlOp?
  }

  function CommitOp(s: State, plan: Plan, done: map<nat, Result>, crashed: bool, i: nat): State
    requires i < |plan.ops| && CrashInCrawl(plan)
  {
    if i !in done then
      if CrashedAt(plan, crashed, i) then s.(pending := s.pending + [plan.ops[i].crawl]) else s
    else if plan.ops[i].DocumentOp? then FillDocument(s, plan.ops[i].lib, plan.ops[i].key, done[i])
    else s
  }

  function CommitOps(s: State, plan: Plan, done: map<nat, Result>, crashed: bool, n: nat): State
    requires n <= |plan.ops| && CrashInCrawl(plan)
  {
    if n == 0 then s else CommitOp(CommitOps(s, plan, done, crashed, n - 1), plan, done, crashed, n - 1)
  }

  function OpProblem(plan: Plan, done: map<nat, Result>, crashed: bool, i: nat): seq<Problem>
    requires i < |plan.ops|
  {
    if i !in done then if CrashedAt(plan, crashed, i) then [] else [NotRun(i)]
    else
      match plan.ops[i]
      case DocumentOp(_, _, _, _) => if done[i].ok then [] else [DocumentRefused(i)]
      case DeleteOp(_) => if done[i].deleted && done[i].provenanceRemoved then [] else [DeleteIncomplete(i)]
      case CrawlOp(c) => CrawlOutcome(c, done[i])
  }

  function OpProblems(plan: Plan, done: map<nat, Result>, crashed: bool, n: nat): seq<Problem>
    requires n <= |plan.ops|
  {
    if n == 0 then [] else OpProblems(plan, done, crashed, n - 1) + OpProblem(plan, done, crashed, n - 1)
  }

  function Committed(plan: Plan, proj: State, lines: seq<Line>, crashed: bool): State
    requires CrashInCrawl(plan)
  {
    CommitOps(proj.(pending := StillPending(proj.pending, Resumed(lines))), plan, Done(lines), crashed, |plan.ops|)
  }

  function Problems(plan: Plan, lines: seq<Line>, crashed: bool): seq<Problem> {
    ResumeProblems(plan.resume, Resumed(lines)) + OpProblems(plan, Done(lines), crashed, |plan.ops|)
  }

  /** A crawl is reported exactly when its status or one page's is not the
      planned one. */
  lemma OutcomeExact(c: Crawl, r: Result)
    ensures CrawlOutcome(c, r) == [] <==>
            && r.status == Some(WantedStatus(c))
            && forall p | p in c.pages :: Get(r.pages, p.no) == Some(WantedPage(c, p))
  {
    PageProblemsExact(c, r, |c.pages|);
    assert c.pages[..|c.pages|] == c.pages;
  }

  lemma {:induction false} PageProblemsExact(c: Crawl, r: Result, n: nat)
    requires n <= |c.pages|
    ensures PageProblems(c, r, n) == [] <==>
            forall p | p in c.pages[..n] :: Get(r.pages, p.no) == Some(WantedPage(c, p))
  {
    if n > 0 {
      PageProblemsExact(c, r, n - 1);
      assert c.pages[..n] == c.pages[..n - 1] + [c.pages[n - 1]];
    }
  }

  /** Whatever the child printed: a commit without a problem leaves pending
      the crawl it was killed in, and nothing else.  Any other operation ran. */
  lemma PendingAfterCommit(plan: Plan, proj: State, lines: seq<Line>, crashed: bool)
    requires CrashInCrawl(plan) && proj.pending == plan.resume
    requires Problems(plan, lines, crashed) == []
    ensures Committed(plan, proj, lines, crashed).pending ==
              (if plan.crash.Some? && crashed && plan.crash.value.opIndex !in Done(lines)
               then [plan.ops[plan.crash.value.opIndex].crawl] else [])
    ensures forall i | 0 <= i < |plan.ops| && !CrashedAt(plan, crashed, i) :: i in Done(lines)
  {
    ResumedNothingPending(plan.resume, Resumed(lines));
    CommitOpsPending(proj.(pending := []), plan, Done(lines), crashed, |plan.ops|);
    OpsRan(plan, Done(lines), crashed, |plan.ops|);
  }

  lemma {:induction false} ResumedNothingPending(resume: seq<Crawl>, resumed: map<Job, Result>)
    requires ResumeProblems(resume, resumed) == []
    ensures StillPending(resume, resumed) == []
  {
    if resume != [] {
      ResumedNothingPending(resume[..|resume| - 1], resumed);
    }
  }

  lemma {:induction false} OpsRan(plan: Plan, done: map<nat, Result>, crashed: bool, n: nat)
    requires n <= |plan.ops| && OpProblems(plan, done, crashed, n) == []
    ensures forall i | 0 <= i < n && !CrashedAt(plan, crashed, i) :: i in done
  {
    hide CrawlOutcome;
    if n > 0 {
      assert OpProblems(plan, done, crashed, n - 1) == [] && OpProblem(plan, done, crashed, n - 1) == [];
      OpsRan(plan, done, crashed, n - 1);
    }
  }

  lemma {:induction false} CommitOpsPending(s: State, plan: Plan, done: map<nat, Result>, crashed: bool, n: nat)
    requires n <= |plan.ops| && CrashInCrawl(plan)
    ensures CommitOps(s, plan, done, crashed, n).pending == s.pending
            + (if plan.crash.Some? && crashed && plan.crash.value.opIndex !in done && plan.crash.value.opIndex < n
               then [plan.ops[plan.crash.value.opIndex].crawl] else [])
  {
    if n > 0 {
      CommitOpsPending(s, plan, done, crashed, n - 1);
    }
  }

  /* ---- when nothing is reported ---- */

  /** The last line the child printed for the operation, or for the resumed
      job. */
  predicate LastOfOp(lines: seq<Line>, n: int, i: nat) {
    0 <= n < |lines| && lines[n].OpLine? && lines[n].index == i
    && forall m | n < m < |lines| && lines[m].OpLine? :: lines[m].index != i
  }

  predicate LastOfJob(lines: seq<Line>, n: int, job: Job) {
    0 <= n < |lines| && lines[n].ResumeLine? && lines[n].job == job
    && forall m | n < m < |lines| && lines[m].ResumeLine? :: lines[m].job != job
  }

  /** The crawl ended partial just when a page of it was to fail, and each page
      failed just when it was to. */
  predicate CrawlAsPlanned(c: Crawl, r: Result) {
    && r.status == Some(if exists p :: p in c.pages && p.fail then Partial else Completed)
    && forall p | p in c.pages :: p.no in r.pages && r.pages[p.no] == if exists q :: q in c.pages && q.no == p.no && q.fail then Failed else Completed
  }

  predicate OpAsPlanned(op: Op, r: Result) {
    match op
    case DocumentOp(_, _, _, _) => r.ok
    case DeleteOp(_) => r.deleted && r.provenanceRemoved
    case CrawlOp(c) => CrawlAsPlanned(c, r)
  }

  ghost predicate ResumedAsPlanned(c: Crawl, lines: seq<Line>) {
    exists n :: LastOfJob(lines, n, c.job) && CrawlAsPlanned(c, lines[n].result)
  }

  /** The operation went as planned, or it is the one the child was killed in
      and printed nothing of. */
  ghost predicate RanAsPlanned(plan: Plan, lines: seq<Line>, crashed: bool, i: nat)
    requires i < |plan.ops|
  {
    || (exists n :: LastOfOp(lines, n, i) && OpAsPlanned(plan.ops[i], lines[n].result))
    || (CrashedAt(plan, crashed, i) && forall n :: !LastOfOp(lines, n, i))
  }

  lemma OpOneMore(lines: seq<Line>, n: int, i: nat)
    requires lines != []
    ensures var k := |lines| - 1;
            LastOfOp(lines, n, i) <==> if lines[k].OpLine? && lines[k].index == i then n == k else LastOfOp(lines[..k], n, i)
  {
    assert lines == lines[..|lines| - 1] + [lines[|lines| - 1]];
  }

  lemma JobOneMore(lines: seq<Line>, n: int, job: Job)
    requires lines != []
    ensures var k := |lines| - 1;
            LastOfJob(lines, n, job) <==> if lines[k].ResumeLine? && lines[k].job == job then n == k else LastOfJob(lines[..k], n, job)
  {
    assert lines == lines[..|lines| - 1] + [lines[|lines| - 1]];
  }

  lemma {:induction false} DoneIsLast(lines: seq<Line>, i: nat)
    ensures i in Done(lines) ==> exists n | 0 <= n < |lines| && LastOfOp(lines, n, i) :: lines[n].result == Done(lines)[i]
    ensures forall n | 0 <= n < |lines| && LastOfOp(lines, n, i) :: i in Done(lines) && lines[n].result == Done(lines)[i]
  {
    if lines != [] {
      hide LastOfOp;
      var k := |lines| - 1;
      DoneIsLast(lines[..k], i);
      forall n ensures LastOfOp(lines, n, i) <==> if lines[k].OpLine? && lines[k].index == i then n == k else LastOfOp(lines[..k], n, i) {
        OpOneMore(lines, n, i);
      }
    }
  }

  lemma {:induction false} ResumedIsLast(lines: seq<Line>, job: Job)
    ensures job in Resumed(lines) ==> exists n | 0 <= n < |lines| && LastOfJob(lines, n, job) :: lines[n].result == Resumed(lines)[job]
    ensures forall n | 0 <= n < |lines| && LastOfJob(lines, n, job) :: job in Resumed(lines) && lines[n].result == Resumed(lines)[job]
  {
    if lines != [] {
      hide LastOfJob;
      var k := |lines| - 1;
      ResumedIsLast(lines[..k], job);
      forall n ensures LastOfJob(lines, n, job) <==> if lines[k].ResumeLine? && lines[k].job == job then n == k else LastOfJob(lines[..k], n, job) {
        JobOneMore(lines, n, job);
      }
    }
  }

  lemma OutcomePlanned(c: Crawl, r: Result)
    ensures CrawlOutcome(c, r) == [] <==> CrawlAsPlanned(c, r)
  {
    hide CrawlOutcome;
    OutcomeExact(c, r);
    PagesToFail(c.pages);
  }

  lemma PagesToFail(pages: seq<PageSpec>)
    ensures Failing(pages) != {} <==> exists p :: p in pages && p.fail
    ensures forall no :: no in Failing(pages) <==> exists q :: q in pages && q.no == no && q.fail
  {
    if p :| p in pages && p.fail {
      assert p.no in Failing(pages);
    }
  }

  lemma ResumedExact(c: Crawl, lines: seq<Line>)
    ensures ResumedAsPlanned(c, lines) <==> c.job in Resumed(lines) && CrawlOutcome(c, Resumed(lines)[c.job]) == []
  {
    hide CrawlOutcome, CrawlAsPlanned, Resumed;
    ResumedIsLast(lines, c.job);
    if c.job in Resumed(lines) {
      OutcomePlanned(c, Resumed(lines)[c.job]);
    }
  }

  lemma {:induction false} ResumeProblemsExact(resume: seq<Crawl>, lines: seq<Line>)
    ensures ResumeProblems(resume, Resumed(lines)) == [] <==> forall c | c in resume :: ResumedAsPlanned(c, lines)
  {
    hide CrawlOutcome, ResumedAsPlanned, Resumed;
    if resume != [] {
      var init, c := resume[..|resume| - 1], resume[|resume| - 1];
      ResumeProblemsExact(init, lines);
      ResumedExact(c, lines);
      assert resume == init + [c];
    }
  }

  lemma OpProblemExact(plan: Plan, lines: seq<Line>, crashed: bool, i: nat)
    requires i < |plan.ops|
    ensures OpProblem(plan, Done(lines), crashed, i) == [] <==> RanAsPlanned(plan, lines, crashed, i)
  {
    hide CrawlOutcome, CrawlAsPlanned, Done, CrashedAt;
    DoneIsLast(lines, i);
    if i in Done(lines) {
      OpResultExact(plan, Done(lines), crashed, i);
      var n :| 0 <= n < |lines| && LastOfOp(lines, n, i) && lines[n].result == Done(lines)[i];
    }
  }

  lemma OpResultExact(plan: Plan, done: map<nat, Result>, crashed: bool, i: nat)
    requires i < |plan.ops| && i in done
    ensures OpProblem(plan, done, crashed, i) == [] <==> OpAsPlanned(plan.ops[i], done[i])
  {
    hide CrawlOutcome, CrawlAsPlanned, CrashedAt;
    if plan.ops[i].CrawlOp? {
      OutcomePlanned(plan.ops[i].crawl, done[i]);
    }
  }

  lemma {:induction false} OpProblemsExact(plan: Plan, lines: seq<Line>, crashed: bool, n: nat)
    requires n <= |plan.ops|
    ensures OpProblems(plan, Done(lines), crashed, n) == [] <==> forall i | 0 <= i < n :: RanAsPlanned(plan, lines, crashed, i)
  {
    hide OpProblem, RanAsPlanned, Done;
    if n > 0 {
      OpProblemsExact(plan, lines, crashed, n - 1);
      OpProblemExact(plan, lines, crashed, n - 1);
    }
  }

  /** A report is taken back without a problem if and only if every crawl
      resumed and every operation has a last line that says it went as planned,
      the one the child was killed in aside. */
  lemma ProblemsExactly(plan: Plan, lines: seq<Line>, crashed: bool)
    ensures Problems(plan, lines, crashed) == [] <==>
              && (forall c | c in plan.resume :: ResumedAsPlanned(c, lines))
              && (forall i | 0 <= i < |plan.ops| :: RanAsPlanned(plan, lines, crashed, i))
  {
    hide ResumeProblems, OpProblems, RanAsPlanned, ResumedAsPlanned, Done, Resumed;
    ResumeProblemsExact(plan.resume, lines);
    OpProblemsExact(plan, lines, crashed, |plan.ops|);
  }

  lemma {:induction false} StillPendingExactly(pending: seq<Crawl>, lines: seq<Line>)
    ensures forall c :: c in StillPending(pending, Resumed(lines)) <==> c in pending && forall n :: !LastOfJob(lines, n, c.job)
  {
    hide Resumed, LastOfJob;
    if pending != [] {
      var init, c := pending[..|pending| - 1], pending[|pending| - 1];
      StillPendingExactly(init, lines);
      ResumedIsLast(lines, c.job);
      NoneOutside(lines, c.job);
      assert pending == init + [c];
    }
  }

  lemma NoneOutside(lines: seq<Line>, job: Job)
    ensures forall n | LastOfJob(lines, n, job) :: 0 <= n < |lines|
  {
  }

  /** Whatever is reported: a crawl waits for the next start exactly when it
      waited for this one and no line says that it was resumed, or when the
      child was killed in it and printed nothing of it. */
  lemma PendingExactly(plan: Plan, proj: State, lines: seq<Line>, crashed: bool, c: Crawl)
    requires CrashInCrawl(plan)
    ensures c in Committed(plan, proj, lines, crashed).pending <==>
              || (c in proj.pending && forall n :: !LastOfJob(lines, n, c.job))
              || (crashed && plan.crash.Some? && c == plan.ops[plan.crash.value.opIndex].crawl
                  && forall n :: !LastOfOp(lines, n, plan.crash.value.opIndex))
  {
    hide Done, Resumed, StillPending, CommitOps, LastOfOp, LastOfJob;
    StillPendingExactly(proj.pending, lines);
    CommitOpsPending(proj.(pending := StillPending(proj.pending, Resumed(lines))), plan, Done(lines), crashed, |plan.ops|);
    if plan.crash.Some? {
      DoneIsLast(lines, plan.crash.value.opIndex);
      NoLineOutside(lines, plan.crash.value.opIndex);
    }
  }

  lemma NoLineOutside(lines: seq<Line>, i: nat)
    ensures forall n | LastOfOp(lines, n, i) :: 0 <= n < |lines|
  {
  }
}
