/** Two loops that drive repairs to their end: `_sweep_until_full`
    (scripts/knowledge_soak.py), which sweeps until every chunk has a vector,
    and `_finish_rebuild` (scripts/memory_soak.py), which reconciles turns
    until a restore's rebuild is done.  What each pass reports, and whether
    the deadline has passed, are arguments. */
module RepairLoops {
  datatype Option<+T> = None | Some(value: T)

  /* ---- the sweep ---- */

  datatype Pass = Pass(embedded: nat, removed: nat, missing: nat, complete: bool, unavailable: bool)

  /** A pass ends with a report, or fails naming what it could not repair. */
  datatype Swept = Reported(pass: Pass) | Raised

  datatype SweepError = SweepFailed | StoreUnavailable | NoProgress | NotFull

  predicate Full(p: Pass) {
    p.complete && p.missing == 0
  }

  predicate Idle(p: Pass) {
    p.embedded == 0 && p.removed == 0
  }

  /** Pass `k` and the two before it did nothing. */
  predicate ThreeIdle(passes: seq<Pass>, k: nat)
    requires k < |passes|
  {
    k >= 2 && Idle(passes[k]) && Idle(passes[k - 1]) && Idle(passes[k - 2])
  }

  /** Why the sweep would end after pass `k`, if it would. */
  predicate EndsAfter(passes: seq<Pass>, k: nat, maxPasses: int)
    requires k < |passes|
  {
    passes[k].unavailable || Full(passes[k]) || ThreeIdle(passes, k) || k + 1 >= maxPasses
  }

  /** The number of passes that did nothing at the end. */
  function Trailing(passes: seq<Pass>): (n: nat)
    ensures n <= |passes| && forall k | |passes| - n <= k < |passes| :: Idle(passes[k])
    ensures n < |passes| ==> !Idle(passes[|passes| - n - 1])
  {
    if passes == [] || !Idle(passes[|passes| - 1]) then 0 else 1 + Trailing(passes[..|passes| - 1])
  }

  function Max(a: int, b: int): int {
    if a < b then b else a
  }

  /** No pass among the first `n` gave a reason to end. */
  predicate WentOn(passes: seq<Pass>, n: nat, maxPasses: int)
    requires n <= |passes|
  {
    forall k | 0 <= k < n :: !EndsAfter(passes, k, maxPasses)
  }

  /** What the sweep must say after its last pass. */
  predicate Verdict(passes: seq<Pass>, error: Option<SweepError>)
    requires passes != []
  {
    var last := passes[|passes| - 1];
    && (error == Some(StoreUnavailable) <==> last.unavailable)
    && (error == None <==> !last.unavailable && Full(last))
    && (error == Some(NoProgress) <==> !last.unavailable && !Full(last) && ThreeIdle(passes, |passes| - 1))
    && error != Some(SweepFailed)
  }

  /** One pass more: what was said of the earlier passes stays, and the run of
      idle ones grows or ends. */
  lemma {:induction false} OnePassMore(before: seq<Pass>, p: Pass, maxPasses: int)
    requires WentOn(before, |before|, maxPasses)
    ensures var passes := before + [p];
            && WentOn(passes, |before|, maxPasses)
            && Trailing(passes) == (if Idle(p) then Trailing(before) + 1 else 0)
            && (Trailing(passes) >= 3 <==> ThreeIdle(passes, |before|))
  {
    var passes := before + [p];
    assert passes[..|before|] == before;
    forall k | 0 <= k < |before| ensures !EndsAfter(passes, k, maxPasses) {
      assert passes[k] == before[k] && !EndsAfter(before, k, maxPasses);
    }
  }

  lemma WentOnFurther(passes: seq<Pass>, maxPasses: int)
    requires passes != [] && WentOn(passes, |passes| - 1, maxPasses)
    ensures WentOn(passes, |passes|, maxPasses) <==> !EndsAfter(passes, |passes| - 1, maxPasses)
  {
    hide EndsAfter;
  }

  /** What the verdict says of the last passes: no error just when coverage is
      complete and no vector missing, and no progress just when three passes
      running neither embedded nor removed anything, and coverage is not full. */
  lemma VerdictExactly(passes: seq<Pass>, error: Option<SweepError>)
    requires passes != [] && Verdict(passes, error)
    ensures var n := |passes|;
            var last := passes[n - 1];
            && (error == None <==> last.complete && last.missing == 0 && !last.unavailable)
            && (error == Some(NoProgress) <==>
                  && n >= 3 && !last.unavailable && !(last.complete && last.missing == 0)
                  && forall k | n - 3 <= k < n :: passes[k].embedded == 0 && passes[k].removed == 0)
            && (error == Some(NotFull) ==> !(last.complete && last.missing == 0))
  {
    var n := |passes|;
    if n >= 3 {
      assert ThreeIdle(passes, n - 1) <==> Idle(passes[n - 3]) && Idle(passes[n - 2]) && Idle(passes[n - 1]);
    }
  }

  /** The sweep ends within the limit, at the first pass with a reason to end;
      coverage is full exactly when it reports no error, and "no progress" is
      said only when the last three passes did nothing. */
  method SweepUntilFull(sweep: nat -> Swept, maxPasses: int) returns (passes: seq<Pass>, error: Option<SweepError>)
    ensures |passes| <= Max(1, maxPasses)
    ensures forall k | 0 <= k < |passes| :: sweep(k) == Reported(passes[k])
    ensures error == Some(SweepFailed) ==> WentOn(passes, |passes|, maxPasses) && sweep(|passes|) == Raised
    ensures error != Some(SweepFailed) ==>
              && passes != [] && WentOn(passes, |passes| - 1, maxPasses)
              && EndsAfter(passes, |passes| - 1, maxPasses) && Verdict(passes, error)
  {
    hide WentOn, Trailing, ThreeIdle;
    passes := [];
    assert WentOn(passes, 0, maxPasses) && Trailing(passes) == 0 by { NoPasses(maxPasses); }
    var idle := 0;
    while true
      invariant |passes| < Max(1, maxPasses) && WentOn(passes, |passes|, maxPasses)
      invariant forall k | 0 <= k < |passes| :: sweep(k) == Reported(passes[k])
      invariant idle == Trailing(passes) < 3
      decreases Max(1, maxPasses) - |passes|
    {
      match sweep(|passes|) {
        case Raised => return passes, Some(SweepFailed);
        case Reported(report) =>
          OnePassMore(passes, report, maxPasses);
          passes := passes + [report];
          idle := if report.embedded == 0 && report.removed == 0 then idle + 1 else 0;
          if report.unavailable {
            return passes, Some(StoreUnavailable);
          }
          if report.complete && report.missing == 0 {
            return passes, None;
          }
          if idle >= 3 {
            return passes, Some(NoProgress);
          }
          if |passes| >= maxPasses {
            return passes, Some(NotFull);
          }
          WentOnFurther(passes, maxPasses);
      }
    }
  }

  lemma NoPasses(maxPasses: int)
    ensures WentOn([], 0, maxPasses) && Trailing([]) == 0
  {
  }

  /* ---- the rebuild after a restore ---- */

  /** What a reconcile pass returns; each part may be missing. */
  datatype Reconciled = Reconciled(written: Option<nat>, done: Option<bool>)

  predicate LeftMore(r: Reconciled) {
    r.done == Some(false)
  }

  function TotalWritten(pass: nat -> Reconciled, n: nat): nat {
    if n == 0 then 0
    else TotalWritten(pass, n - 1) + (if pass(n - 1).written.Some? then pass(n - 1).written.value else 0)
  }

  /** The total is the work done: when each pass takes what it wrote off what is
      left, it is what was left before less what is left after. */
  lemma {:induction false} WrittenIsTaken(pass: nat -> Reconciled, left: nat -> int, n: nat)
    requires forall k: nat | k < n :: left(k) - left(k + 1) == match pass(k).written case Some(w) => w case None => 0
    ensures TotalWritten(pass, n) == left(0) - left(n)
  {
    if n > 0 {
      WrittenIsTaken(pass, left, n - 1);
    }
  }

  /** The rebuild runs passes while the report before left more, up to its
      limit or deadline; the total is the passes' sum, and it is finished
      exactly when the last report left nothing. */
  method FinishRebuild(more: bool, pass: nat -> Reconciled, maxPasses: nat, late: nat -> bool)
    returns (passes: nat, written: nat, finished: bool)
    ensures passes <= maxPasses && written == TotalWritten(pass, passes)
    ensures passes > 0 ==> more && forall k | 0 <= k < passes - 1 :: LeftMore(pass(k))
    ensures forall k | 0 <= k < passes :: !late(k)
    ensures finished <==> if passes == 0 then !more else !LeftMore(pass(passes - 1))
    ensures !finished ==> passes == maxPasses || late(passes)
  {
    passes, written := 0, 0;
    var left := more;
    while left && passes < maxPasses && !late(passes)
      invariant passes <= maxPasses && written == TotalWritten(pass, passes)
      invariant passes > 0 ==> more && forall k | 0 <= k < passes - 1 :: LeftMore(pass(k))
      invariant forall k | 0 <= k < passes :: !late(k)
      invariant left <==> if passes == 0 then more else LeftMore(pass(passes - 1))
    {
      var r := pass(passes);
      passes := passes + 1;
      written := written + (if r.written.Some? then r.written.value else 0);
      left := r.done.Some? && !r.done.value;
    }
    finished := !left;
  }
}
