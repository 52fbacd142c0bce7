/** The numbers README restates (scripts/generate_metrics.py): what
    `sync_readme` writes and what `check_readme` accepts.  README is a list of
    pieces, the claims the two functions look for among other text; a claim
    holds its figures as written. */
module ReadmeMetrics {
  import opened Decimal

  /** `collected` is 0 when pytest could not collect. */
  datatype Metrics = Metrics(
    collected: nat, files: nat, commits: nat, packages: nat, total: nat, pureCode: nat, js: nat, shallow: bool)

  datatype Piece =
    | Other(text: string)
    | TestsBadge(figure: string)
    | CommitsBadge(figure: string)
    /** "**~NK LOC**", with "(NK Python code + NK JS)" after it or not */
    | LocClaim(loc: real, parts: Option<(real, real)>)
    /** "**N tests** (N test files)", or the older "test functions" */
    | TestsClaim(tests: string, files: string, functions: bool)
    /** "**N+ commits**", followed by " across" or not */
    | CommitsClaim(commits: string, across: bool)
    | PackagesClaim(packages: string)

  const TEST_SLACK := 75
  const FILE_SLACK := 10
  const LOC_SLACK := 5
  const COMMIT_SLACK := 250

  datatype Substitution = ToCommitsBadge | ToLoc | ToCommits | ToPackages | ToTestsBadge | ToTests

  /** What one substitution makes of a piece it matches. */
  function Substituted(m: Metrics, sub: Substitution, p: Piece): Piece {
    match sub
    case ToCommitsBadge => if p.CommitsBadge? then CommitsBadge(Escape(Grouped(m.commits)) + "%2B") else p
    case ToLoc =>
      if p.LocClaim? && p.parts.Some? then
        LocClaim(Thousands(m.total) as real, Some((Thousands(m.pureCode) as real, Thousands(m.js) as real)))
      else p
    case ToCommits => if p.CommitsClaim? && p.across then CommitsClaim(Grouped(m.commits), true) else p
    case ToPackages => if p.PackagesClaim? then PackagesClaim(Digits(m.packages)) else p
    case ToTestsBadge => if p.TestsBadge? then TestsBadge(Escape(Grouped(m.collected))) else p
    case ToTests => if p.TestsClaim? then TestsClaim(Grouped(m.collected), Grouped(m.files), false) else p
  }

  function Substitutions(m: Metrics): seq<Substitution> {
    [ToCommitsBadge, ToLoc, ToCommits, ToPackages] + if m.collected != 0 then [ToTestsBadge, ToTests] else []
  }

  /** A piece as README states it after the sync. */
  function Synced(m: Metrics, p: Piece): Piece {
    match p
    case Other(_) => p
    case TestsBadge(_) => if m.collected != 0 then TestsBadge(Escape(Grouped(m.collected))) else p
    case CommitsBadge(_) => CommitsBadge(Escape(Grouped(m.commits)) + "%2B")
    case LocClaim(_, parts) =>
      if parts.Some? then LocClaim(Thousands(m.total) as real, Some((Thousands(m.pureCode) as real, Thousands(m.js) as real))) else p
    case TestsClaim(_, _, _) => if m.collected != 0 then TestsClaim(Grouped(m.collected), Grouped(m.files), false) else p
    case CommitsClaim(_, across) => if across then CommitsClaim(Grouped(m.commits), true) else p
    case PackagesClaim(_) => PackagesClaim(Digits(m.packages))
  }

  function SyncedText(m: Metrics, text: seq<Piece>): (synced: seq<Piece>)
    ensures |synced| == |text|
  {
    seq(|text|, i requires 0 <= i < |text| => Synced(m, text[i]))
  }

  function Applied(m: Metrics, subs: seq<Substitution>, p: Piece): Piece {
    if subs == [] then p else Substituted(m, subs[|subs| - 1], Applied(m, subs[..|subs| - 1], p))
  }

  lemma AppliedOneMore(m: Metrics, subs: seq<Substitution>, sub: Substitution, p: Piece)
    ensures Applied(m, subs + [sub], p) == Substituted(m, sub, Applied(m, subs, p))
  {
    hide Substituted;
    assert (subs + [sub])[..|subs|] == subs;
  }

  lemma AppliedAll(m: Metrics, p: Piece)
    ensures Applied(m, Substitutions(m), p) == Synced(m, p)
  {
    hide Grouped, Escape, Digits, Thousands;
    var none: seq<Substitution> := [];
    var one := none + [ToCommitsBadge];
    var two := one + [ToLoc];
    var three := two + [ToCommits];
    var four := three + [ToPackages];
    var five := four + [ToTestsBadge];
    AppliedOneMore(m, none, ToCommitsBadge, p);
    AppliedOneMore(m, one, ToLoc, p);
    AppliedOneMore(m, two, ToCommits, p);
    AppliedOneMore(m, three, ToPackages, p);
    AppliedOneMore(m, four, ToTestsBadge, p);
    AppliedOneMore(m, five, ToTests, p);
    assert Substitutions(m) == if m.collected != 0 then five + [ToTests] else four;
  }

  /** `sync_readme`: one substitution after another over the whole text. */
  method SyncReadme(m: Metrics, text: seq<Piece>) returns (synced: seq<Piece>)
    ensures synced == SyncedText(m, text)
  {
    hide Substituted, Synced, Substitutions;
    synced := text;
    var subs := Substitutions(m);
    for n := 0 to |subs|
      invariant |synced| == |text| && forall i | 0 <= i < |text| :: synced[i] == Applied(m, subs[..n], text[i])
    {
      assert subs[..n + 1][..n] == subs[..n];
      synced := seq(|synced|, i requires 0 <= i < |synced| => Substituted(m, subs[n], synced[i]));
    }
    assert subs[..|subs|] == subs;
    forall i | 0 <= i < |text| ensures synced[i] == Synced(m, text[i]) {
      AppliedAll(m, text[i]);
    }
  }

  /* ---- the check ---- */

  datatype Kind = Tests | Badge | Loc | Packages | Commits

  /** What `re.search` looks for: the older "test functions" is not a claim the
      check reads. */
  predicate IsClaim(kind: Kind, p: Piece) {
    match kind
    case Tests => p.TestsClaim? && !p.functions
    case Badge => p.TestsBadge?
    case Loc => p.LocClaim?
    case Packages => p.PackagesClaim?
    case Commits => p.CommitsClaim?
  }

  function First(kind: Kind, text: seq<Piece>): Option<Piece> {
    if text == [] then None else if IsClaim(kind, text[0]) then Some(text[0]) else First(kind, text[1..])
  }

  method Search(kind: Kind, text: seq<Piece>) returns (found: Option<Piece>)
    ensures found == First(kind, text)
  {
    for i := 0 to |text|
      invariant First(kind, text) == First(kind, text[i..])
    {
      assert text[i..][1..] == text[i + 1..];
      if IsClaim(kind, text[i]) {
        return Some(text[i]);
      }
    }
    return None;
  }

  function Read(figure: string): Option<nat> {
    ReadInt(Ungroup(figure))
  }

  function Distance(a: int, b: int): nat {
    if a < b then b - a else a - b
  }

  predicate TestsHonest(m: Metrics, claim: Option<Piece>) {
    && claim.Some? && claim.value.TestsClaim? && m.collected != 0
    && Read(claim.value.tests).Some? && Distance(Read(claim.value.tests).value, m.collected) <= TEST_SLACK
    && Read(claim.value.files).Some? && Distance(Read(claim.value.files).value, m.files) <= FILE_SLACK
  }

  predicate LocHonest(m: Metrics, claim: Option<Piece>) {
    claim.Some? && claim.value.LocClaim? && -(LOC_SLACK as real) <= claim.value.loc - Thousands(m.total) as real <= LOC_SLACK as real
  }

  predicate PackagesHonest(m: Metrics, claim: Option<Piece>) {
    claim.Some? && claim.value.PackagesClaim? && ReadInt(claim.value.packages) == Some(m.packages)
  }

  predicate BadgeHonest(badge: Option<Piece>, claim: Option<Piece>) {
    badge.Some? && badge.value.TestsBadge? && claim.Some? && claim.value.TestsClaim?
    ==> Unescape(badge.value.figure) == claim.value.tests
  }

  /** A lower bound: it may lag, not overstate.  A shallow clone cannot tell. */
  predicate CommitsHonest(m: Metrics, claim: Option<Piece>) {
    m.shallow
    || (claim.Some? && claim.value.CommitsClaim? && Read(claim.value.commits).Some?
        && Read(claim.value.commits).value <= m.commits <= Read(claim.value.commits).value + COMMIT_SLACK)
  }

  predicate Honest(m: Metrics, text: seq<Piece>) {
    && TestsHonest(m, First(Tests, text)) && LocHonest(m, First(Loc, text)) && PackagesHonest(m, First(Packages, text))
    && BadgeHonest(First(Badge, text), First(Tests, text)) && CommitsHonest(m, First(Commits, text))
  }

  datatype Problem =
    | NoTestsClaim | CannotCollect | TestsOut | FilesOut | NoLocClaim | LocOut | NoPackagesClaim | PackagesOut
    | BadgeContradicts | NoCommitsClaim | CommitsOverstated | CommitsRotten

  /** The check appends to its problems; a figure without a digit raises. */
  datatype Outcome = Checked(problems: seq<Problem>) | Raised

  method CheckTests(m: Metrics, claim: Option<Piece>) returns (problems: seq<Problem>, raised: bool)
    requires claim.Some? ==> IsClaim(Tests, claim.value)
    ensures !raised && problems == [] <==> TestsHonest(m, claim)
  {
    problems, raised := [], false;
    if claim.None? {
      return [NoTestsClaim], false;
    }
    if m.collected == 0 {
      problems := [CannotCollect];
    } else if Read(claim.value.tests).None? {
      return [], true;
    } else if Distance(Read(claim.value.tests).value, m.collected) > TEST_SLACK {
      problems := [TestsOut];
    }
    if Read(claim.value.files).None? {
      return problems, true;
    }
    if Distance(Read(claim.value.files).value, m.files) > FILE_SLACK {
      problems := problems + [FilesOut];
    }
  }

  method CheckCommits(m: Metrics, claim: Option<Piece>) returns (problems: seq<Problem>, raised: bool)
    requires claim.Some? ==> IsClaim(Commits, claim.value)
    ensures !raised && problems == [] <==> CommitsHonest(m, claim)
  {
    if m.shallow {
      return [], false;
    }
    if claim.None? {
      return [NoCommitsClaim], false;
    }
    if Read(claim.value.commits).None? {
      return [], true;
    }
    var claimed := Read(claim.value.commits).value;
    if claimed > m.commits {
      return [CommitsOverstated], false;
    } else if m.commits - claimed > COMMIT_SLACK {
      return [CommitsRotten], false;
    }
    return [], false;
  }

  lemma {:induction false} FirstIsClaim(kind: Kind, text: seq<Piece>)
    ensures First(kind, text).Some? ==> IsClaim(kind, First(kind, text).value) && First(kind, text).value in text
  {
    if text != [] && !IsClaim(kind, text[0]) {
      FirstIsClaim(kind, text[1..]);
    }
  }

  /** `check_readme`: nothing is reported exactly when README is honest. */
  method CheckReadme(m: Metrics, text: seq<Piece>) returns (outcome: Outcome)
    ensures outcome == Checked([]) <==> Honest(m, text)
  {
    hide First, Unescape, ReadInt, Thousands, TestsHonest, CommitsHonest;
    var tests := Search(Tests, text);
    FirstIsClaim(Tests, text);
    var problems, raised := CheckTests(m, tests);
    if raised {
      return Raised;
    }
    var loc := Search(Loc, text);
    FirstIsClaim(Loc, text);
    if loc.None? {
      problems := problems + [NoLocClaim];
    } else {
      var out := loc.value.loc - Thousands(m.total) as real;
      if out > LOC_SLACK as real || -out > LOC_SLACK as real {
        problems := problems + [LocOut];
      }
    }
    var packages := Search(Packages, text);
    FirstIsClaim(Packages, text);
    if packages.None? {
      problems := problems + [NoPackagesClaim];
    } else if ReadInt(packages.value.packages) != Some(m.packages) {
      problems := problems + [PackagesOut];
    }
    var badge := Search(Badge, text);
    FirstIsClaim(Badge, text);
    if badge.Some? && tests.Some? && Unescape(badge.value.figure) != tests.value.tests {
      problems := problems + [BadgeContradicts];
    }
    var commits := Search(Commits, text);
    FirstIsClaim(Commits, text);
    var more, undigit := CheckCommits(m, commits);
    if undigit {
      return Raised;
    }
    return Checked(problems + more);
  }

  /* ---- when nothing is reported ---- */

  /** The first piece of its kind, the older "test functions" passed over. */
  predicate FirstAt(text: seq<Piece>, i: int, kind: Kind) {
    0 <= i < |text| && Claims(text[i], kind) && forall j | 0 <= j < i :: !Claims(text[j], kind)
  }

  predicate Claims(p: Piece, kind: Kind) {
    match p
    case TestsClaim(_, _, functions) => kind == Tests && !functions
    case TestsBadge(_) => kind == Badge
    case LocClaim(_, _) => kind == Loc
    case PackagesClaim(_) => kind == Packages
    case CommitsClaim(_, _) => kind == Commits
    case Other(_) => false
    case CommitsBadge(_) => false
  }

  /** The figure reads as a number no further off than the slack. */
  predicate Within(figure: string, n: nat, slack: nat) {
    Read(figure).Some? && n - slack <= Read(figure).value <= n + slack
  }

  predicate ClaimHolds(m: Metrics, p: Piece) {
    match p
    case TestsClaim(tests, files, _) => m.collected != 0 && Within(tests, m.collected, 75) && Within(files, m.files, 10)
    case LocClaim(loc, _) => Thousands(m.total) as real - 5.0 <= loc <= Thousands(m.total) as real + 5.0
    case PackagesClaim(packages) => ReadInt(packages) == Some(m.packages)
    case CommitsClaim(commits, _) => m.shallow || (Read(commits).Some? && Read(commits).value <= m.commits <= Read(commits).value + 250)
    case _ => true
  }

  ghost predicate ClaimStands(m: Metrics, text: seq<Piece>, kind: Kind) {
    exists i :: FirstAt(text, i, kind) && ClaimHolds(m, text[i])
  }

  /** A README is honest exactly when the first claim of each kind is there and
      holds, that of the commits only where they can be counted, and the first
      badge shows the figure of the first test claim. */
  lemma HonestExactly(m: Metrics, text: seq<Piece>)
    ensures Honest(m, text) <==>
              && ClaimStands(m, text, Tests) && ClaimStands(m, text, Loc) && ClaimStands(m, text, Packages)
              && (m.shallow || ClaimStands(m, text, Commits))
              && (forall i, j | FirstAt(text, i, Badge) && FirstAt(text, j, Tests) :: Unescape(text[i].figure) == text[j].tests)
  {
    hide First, Unescape, Read, ReadInt, Thousands, FirstAt;
    FirstIs(Tests, text);
    FirstIs(Loc, text);
    FirstIs(Packages, text);
    FirstIs(Badge, text);
    FirstIs(Commits, text);
  }

  lemma {:induction false} FirstIs(kind: Kind, text: seq<Piece>)
    ensures forall i | FirstAt(text, i, kind) :: 0 <= i < |text| && Claims(text[i], kind) && First(kind, text) == Some(text[i])
    ensures First(kind, text).Some? ==> exists i :: FirstAt(text, i, kind)
  {
    if text != [] && !IsClaim(kind, text[0]) {
      FirstIs(kind, text[1..]);
      forall i | FirstAt(text, i, kind) ensures First(kind, text) == Some(text[i]) {
        assert FirstAt(text[1..], i - 1, kind);
      }
      if i :| FirstAt(text[1..], i, kind) {
        assert FirstAt(text, i + 1, kind);
      }
    } else if text != [] {
      assert FirstAt(text, 0, kind);
    }
  }

  /* ---- sync, then check ---- */

  lemma {:induction false} SyncedFirst(m: Metrics, kind: Kind, text: seq<Piece>)
    requires kind != Tests || m.collected == 0
    ensures First(kind, SyncedText(m, text))
            == (if First(kind, text).Some? then Some(Synced(m, First(kind, text).value)) else None)
  {
    hide Grouped, Escape, Digits, Thousands;
    if text != [] {
      SyncedFirst(m, kind, text[1..]);
      assert SyncedText(m, text)[1..] == SyncedText(m, text[1..]);
    }
  }

  /** K figures: the nearest thousand. */
  predicate Near(figure: real, n: nat) {
    exists k: nat :: k <= n + 1 && figure == k as real && -500 <= n - 1000 * k <= 500
  }

  /** What each piece says after the sync, read back: the size and its parts,
      the commits in badge and table, the packages, and the tests if they could
      be collected; the rest is as it was. */
  lemma SyncedSays(m: Metrics, p: Piece)
    ensures match (p, Synced(m, p))
            case (CommitsBadge(_), CommitsBadge(figure)) =>
              |figure| >= 3 && figure[|figure| - 3..] == "%2B" && Read(Unescape(figure[..|figure| - 3])) == Some(m.commits)
            case (TestsBadge(_), TestsBadge(figure)) => if m.collected != 0 then Read(Unescape(figure)) == Some(m.collected) else figure == p.figure
            case (LocClaim(_, Some(_)), LocClaim(loc, Some(parts))) =>
              Near(loc, m.total) && Near(parts.0, m.pureCode) && Near(parts.1, m.js)
            case (CommitsClaim(_, true), CommitsClaim(commits, across)) => across && Read(commits) == Some(m.commits)
            case (PackagesClaim(_), PackagesClaim(packages)) => ReadInt(packages) == Some(m.packages)
            case (TestsClaim(_, _, _), TestsClaim(tests, files, functions)) =>
              if m.collected != 0 then Read(tests) == Some(m.collected) && Read(files) == Some(m.files) && !functions
              else Synced(m, p) == p
            case (_, _) => Synced(m, p) == p
  {
    hide Grouped, Escape, Unescape, Digits, Thousands, Read, ReadInt;
    ReadGrouped(m.commits);
    ReadGrouped(m.collected);
    ReadGrouped(m.files);
    BadgeReads(m.commits);
    BadgeReads(m.collected);
    DigitsRoundTrip(m.packages);
    ThousandsNear(m.total);
    ThousandsNear(m.pureCode);
    ThousandsNear(m.js);
    var figure := Escape(Grouped(m.commits)) + "%2B";
    assert figure[..|figure| - 3] == Escape(Grouped(m.commits));
  }

  lemma BadgeReads(n: nat)
    ensures Read(Unescape(Escape(Grouped(n)))) == Some(n)
  {
    BadgeRoundTrip(n);
  }

  lemma ThousandsNear(n: nat)
    ensures Near(Thousands(n) as real, n)
  {
    ThousandsNearest(n, 0);
  }

  predicate SaysTests(text: seq<Piece>) {
    exists i :: 0 <= i < |text| && text[i].TestsClaim?
  }

  lemma {:induction false} SyncedTests(m: Metrics, text: seq<Piece>)
    requires m.collected != 0 && SaysTests(text)
    ensures First(Tests, SyncedText(m, text)) == Some(TestsClaim(Grouped(m.collected), Grouped(m.files), false))
  {
    hide Grouped, Escape, Digits, Thousands;
    var synced := SyncedText(m, text);
    if !text[0].TestsClaim? {
      var i :| 0 <= i < |text| && text[i].TestsClaim?;
      assert text[1..][i - 1].TestsClaim?;
      SyncedTests(m, text[1..]);
      assert synced[1..] == SyncedText(m, text[1..]);
    }
  }

  /** The test figures, after a sync at `was`, pass at `now`.  Without a
      collection they are left as they were. */
  predicate TestsStand(was: Metrics, now: Metrics, text: seq<Piece>) {
    if was.collected == 0 then TestsHonest(now, First(Tests, text)) && BadgeHonest(First(Badge, text), First(Tests, text))
    else
      && SaysTests(text) && now.collected != 0
      && Distance(was.collected, now.collected) <= TEST_SLACK && Distance(was.files, now.files) <= FILE_SLACK
  }

  /** The first size claim: rewritten only with its parts after it. */
  predicate LocStands(was: Metrics, now: Metrics, claim: Option<Piece>) {
    && claim.Some? && claim.value.LocClaim?
    && if claim.value.parts.Some? then Distance(Thousands(was.total), Thousands(now.total)) <= LOC_SLACK
       else LocHonest(now, claim)
  }

  /** The first commit claim: rewritten only with " across" after it. */
  predicate CommitsStand(was: Metrics, now: Metrics, claim: Option<Piece>) {
    || now.shallow
    || (&& claim.Some? && claim.value.CommitsClaim?
        && if claim.value.across then was.commits <= now.commits <= was.commits + COMMIT_SLACK else CommitsHonest(now, claim))
  }

  /** What it takes for a README synced at `was` to pass the check at `now`. */
  predicate StaysHonest(was: Metrics, now: Metrics, text: seq<Piece>) {
    && TestsStand(was, now, text) && LocStands(was, now, First(Loc, text))
    && First(Packages, text).Some? && was.packages == now.packages
    && CommitsStand(was, now, First(Commits, text))
  }

  /** A synced README passes the check, then or later, exactly while each
      figure the sync rewrote is within its slack, and each the check reads but
      the sync does not rewrite is within it by itself. */
  lemma SyncedStaysHonest(was: Metrics, now: Metrics, text: seq<Piece>)
    ensures Honest(now, SyncedText(was, text)) <==> StaysHonest(was, now, text)
  {
    hide Grouped, Escape, Unescape, Digits, Thousands, First, Read, ReadInt, SyncedText, TestsHonest, TestsStand, BadgeHonest, SaysTests;
    SyncedTestsStand(was, now, text);
    SyncedFirst(was, Loc, text);
    SyncedFirst(was, Packages, text);
    SyncedFirst(was, Commits, text);
    FirstIsClaim(Loc, text);
    FirstIsClaim(Packages, text);
    FirstIsClaim(Commits, text);
    ReadGrouped(was.commits);
    DigitsRoundTrip(was.packages);
  }

  lemma ReadGrouped(n: nat)
    ensures Read(Grouped(n)) == Some(n)
  {
    GroupedRoundTrip(n);
  }

  lemma SyncedTestsStand(was: Metrics, now: Metrics, text: seq<Piece>)
    ensures var synced := SyncedText(was, text);
            TestsHonest(now, First(Tests, synced)) && BadgeHonest(First(Badge, synced), First(Tests, synced)) <==> TestsStand(was, now, text)
  {
    hide Grouped, Escape, Unescape, Digits, Thousands, First, Read, SyncedText, SaysTests;
    SyncedFirst(was, Badge, text);
    FirstIsClaim(Badge, text);
    FirstIsClaim(Tests, text);
    if was.collected == 0 {
      SyncedFirst(was, Tests, text);
    } else if SaysTests(text) {
      SyncedTests(was, text);
      ReadGrouped(was.collected);
      ReadGrouped(was.files);
      BadgeRoundTrip(was.collected);
    } else {
      NoneSaysTests(was, text);
    }
  }

  lemma NoneSaysTests(m: Metrics, text: seq<Piece>)
    requires !SaysTests(text)
    ensures First(Tests, SyncedText(m, text)) == None
  {
    hide Grouped, Escape, Digits, Thousands;
    var synced := SyncedText(m, text);
    FirstIsClaim(Tests, synced);
    forall i | 0 <= i < |synced| ensures !IsClaim(Tests, synced[i]) {
      assert !text[i].TestsClaim?;
    }
  }

  /** So a fresh sync passes exactly when each claim is there, and one that it
      does not rewrite is honest already. */
  lemma SyncedIsHonest(m: Metrics, text: seq<Piece>)
    requires m.collected != 0
    ensures Honest(m, SyncedText(m, text)) <==>
              var loc, commits := First(Loc, text), First(Commits, text);
              && SaysTests(text) && First(Packages, text).Some?
              && loc.Some? && loc.value.LocClaim? && (loc.value.parts.Some? || LocHonest(m, loc))
              && (m.shallow || (commits.Some? && commits.value.CommitsClaim? && (commits.value.across || CommitsHonest(m, commits))))
  {
    hide Honest, First, Thousands, Read, SaysTests;
    SyncedStaysHonest(m, m, text);
  }

  /** A first size claim without its parts, and a first commit claim without
      " across": no sync rewrites either, so one that is not honest keeps the
      README dishonest, whatever metrics are synced. */
  lemma SyncLeavesClaims(was: Metrics, now: Metrics, text: seq<Piece>)
    ensures var loc := First(Loc, text);
            loc.Some? && loc.value.LocClaim? && loc.value.parts.None? ==>
              First(Loc, SyncedText(was, text)) == loc && (!LocHonest(now, loc) ==> !Honest(now, SyncedText(was, text)))
    ensures var commits := First(Commits, text);
            commits.Some? && commits.value.CommitsClaim? && !commits.value.across ==>
              First(Commits, SyncedText(was, text)) == commits && (!CommitsHonest(now, commits) ==> !Honest(now, SyncedText(was, text)))
  {
    hide Grouped, Escape, Unescape, Digits, Thousands, First, Read, ReadInt, SyncedText, TestsHonest, BadgeHonest;
    SyncedFirst(was, Loc, text);
    SyncedFirst(was, Commits, text);
  }

  /** Two such texts, each with every claim there, whose fresh sync fails. */
  lemma SyncedDishonest() returns (m: Metrics, size: seq<Piece>, commits: seq<Piece>)
    ensures m.collected != 0
    ensures !Honest(m, SyncedText(m, size)) && First(Commits, size) == Some(CommitsClaim("0", true))
    ensures !Honest(m, SyncedText(m, commits)) && First(Loc, commits) == Some(LocClaim(0.0, Some((0.0, 0.0))))
    ensures SaysTests(size) && SaysTests(commits) && First(Packages, size).Some? && First(Packages, commits).Some?
  {
    m := Metrics(1, 1, 0, 1, 0, 0, 0, false);
    var tests, packages := TestsClaim("1", "1", false), PackagesClaim("1");
    size := [tests, packages, LocClaim(409.0, None), CommitsClaim("0", true)];
    commits := [tests, packages, LocClaim(0.0, Some((0.0, 0.0))), CommitsClaim("7", false)];
    hide Grouped, Escape, Unescape, Honest, SyncedText;
    FirstsOf(tests, packages, LocClaim(409.0, None), CommitsClaim("0", true));
    FirstsOf(tests, packages, LocClaim(0.0, Some((0.0, 0.0))), CommitsClaim("7", false));
    assert size[0].TestsClaim? && commits[0].TestsClaim?;
    ReadSeven();
    SyncedIsHonest(m, size);
    SyncedIsHonest(m, commits);
  }

  lemma ReadSeven()
    ensures Read("7") == Some(7)
  {
    assert "7"[..0] == "" && "7"[1..] == "";
    assert Ungroup("") == "" && Ungroup("7") == "7";
    assert Value("") == 0 && Value("7") == 7;
  }

  lemma FirstsOf(tests: Piece, packages: Piece, loc: Piece, commits: Piece)
    requires tests.TestsClaim? && packages.PackagesClaim? && loc.LocClaim? && commits.CommitsClaim?
    ensures var text := [tests, packages, loc, commits];
            First(Packages, text) == Some(packages) && First(Loc, text) == Some(loc) && First(Commits, text) == Some(commits)
  {
    hide First;
    var text, third, last := [tests, packages, loc, commits], [loc, commits], [commits];
    assert text == [tests] + [packages, loc, commits] && [packages, loc, commits] == [packages] + third && third == [loc] + last;
    FirstOf(Packages, tests, [packages, loc, commits]);
    FirstOf(Packages, packages, third);
    FirstOf(Loc, tests, [packages, loc, commits]);
    FirstOf(Loc, packages, third);
    FirstOf(Loc, loc, last);
    FirstOf(Commits, tests, [packages, loc, commits]);
    FirstOf(Commits, packages, third);
    FirstOf(Commits, loc, last);
    FirstOf(Commits, commits, []);
    assert last == [commits] + [];
  }

  lemma FirstOf(kind: Kind, p: Piece, rest: seq<Piece>)
    ensures First(kind, [p] + rest) == if IsClaim(kind, p) then Some(p) else First(kind, rest)
  {
    assert ([p] + rest)[1..] == rest;
  }

  /** The badge and the table it was synced with state one number. */
  lemma BadgeAndTableAgree(m: Metrics, text: seq<Piece>)
    requires m.collected != 0 && SaysTests(text) && First(Badge, text).Some?
    ensures var synced := SyncedText(m, text);
            && First(Badge, synced).Some? && First(Badge, synced).value.TestsBadge?
            && First(Tests, synced).Some? && First(Tests, synced).value.TestsClaim?
            && Read(Unescape(First(Badge, synced).value.figure)) == Read(First(Tests, synced).value.tests) == Some(m.collected)
  {
    hide Grouped, Escape, Unescape, Digits, Thousands, First, ReadInt, Ungroup, SyncedText;
    SyncedTests(m, text);
    SyncedFirst(m, Badge, text);
    FirstIsClaim(Badge, text);
    BadgeRoundTrip(m.collected);
  }

  /** Syncing twice is syncing once. */
  lemma SyncTwice(m: Metrics, text: seq<Piece>)
    ensures SyncedText(m, SyncedText(m, text)) == SyncedText(m, text)
  {
    hide Grouped, Escape, Digits, Thousands;
    forall i | 0 <= i < |text| ensures Synced(m, Synced(m, text[i])) == Synced(m, text[i]) {
    }
  }
}
