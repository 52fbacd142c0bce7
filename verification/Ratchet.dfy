/** The score ratchets: the thresholds file that a lock writes and that later
    locks may not fall below, with reviewed trades (scripts/memory_bench.py)
    and without (scripts/knowledge_bench.py).  Scores are rates, exact reals
    here. */
module Ratchet {
  datatype Option<+T> = None | Some(value: T)

  type Rate = r: real | 0.0 <= r <= 1.0
  type Scores = map<string, Rate>

  datatype Trade = Trade(version: nat, reason: string, lowered: map<string, (real, real)>, raised: map<string, (real, real)>)
  datatype Thresholds = Thresholds(version: nat, scores: Scores, trades: seq<Trade>, extraction: Scores, postgres: Scores)

  const TRADE_MAX_DROP := 0.05
  const TRADE_MIN_GAIN := 0.05
  const NEVER_TRADED := {"abstain.hit_rate", "heldout.abstain.hit_rate"}

  /** A score as the ratchet compares it: a missing one counts as -1. */
  function Score(scores: Scores, k: string): real {
    if k in scores then scores[k] else -1.0
  }

  function Lowered(was: Scores, now: Scores): set<string> {
    set k | k in was && Score(now, k) < was[k]
  }

  function Raised(was: Scores, now: Scores): set<string> {
    set k | k in now && now[k] > Score(was, k)
  }

  /** A trade is acceptable: what falls falls a little, abstention not at all,
      and something that was measured before pays for it. */
  predicate Tradable(was: Scores, now: Scores) {
    && (forall k | k in was && Score(now, k) < was[k] :: k !in NEVER_TRADED && k in now && was[k] - now[k] <= TRADE_MAX_DROP)
    && (Lowered(was, now) != {} ==> exists k :: k in was && k in now && now[k] - was[k] >= TRADE_MIN_GAIN)
  }

  datatype Objection = NeverTraded(key: string) | FallsTooFar(key: string) | NothingPays

  method TradeProblems(was: Scores, now: Scores) returns (problems: seq<Objection>)
    ensures problems == [] <==> Tradable(was, now)
  {
    problems := [];
    var lowered, raised := Lowered(was, now), Raised(was, now);
    var todo := lowered;
    while todo != {}
      invariant todo <= lowered
      invariant problems == [] <==>
                  forall k | k in lowered && k !in todo :: k !in NEVER_TRADED && k in now && was[k] - now[k] <= TRADE_MAX_DROP
      decreases todo
    {
      var k :| k in todo;
      todo := todo - {k};
      if k in NEVER_TRADED {
        problems := problems + [NeverTraded(k)];
      } else if was[k] - Score(now, k) > TRADE_MAX_DROP {
        problems := problems + [FallsTooFar(k)];
      }
    }
    if lowered != {} && !exists k :: k in raised && k in was && now[k] - was[k] >= TRADE_MIN_GAIN {
      problems := problems + [NothingPays];
    }
    if k :| k in was && k in now && now[k] - was[k] >= TRADE_MIN_GAIN {
      assert k in raised;
    }
  }

  function Max(a: Rate, b: Rate): Rate {
    if a < b then b else a
  }

  /** The extraction scores, each raised to today's: today's keys only. */
  function ExtractionFloor(was: Scores, now: Scores): Scores {
    map k | k in now :: if k in was then Max(now[k], was[k]) else now[k]
  }

  /** A lock: the dataset's version, what was measured on it, and how it was
      asked for.  An empty reason is none. */
  datatype Attempt = Attempt(version: nat, scores: Scores, extraction: Scores, rebaseline: bool, trade: Option<string>)

  predicate Measures(file: Option<Thresholds>, version: nat) {
    file.Some? && file.value.version == version
  }

  predicate Reasoned(a: Attempt) {
    a.trade.Some? && a.trade.value != ""
  }

  function Gate(file: Option<Thresholds>, a: Attempt): Scores {
    if a.rebaseline || file.None? then map[] else file.value.scores
  }

  /** The lock is accepted: a rebaseline only on another dataset than the
      ratchet's, any other lock only on the ratchet's own, lowering nothing
      but by a reviewed trade. */
  predicate Accepted(file: Option<Thresholds>, a: Attempt) {
    if a.rebaseline then !Measures(file, a.version)
    else
      && Measures(file, a.version)
      && (Lowered(file.value.scores, a.scores) == {} || (Reasoned(a) && Tradable(file.value.scores, a.scores)))
  }

  function Written(file: Option<Thresholds>, a: Attempt): Thresholds {
    var gate := Gate(file, a);
    var trades := if file.Some? then file.value.trades else [];
    Thresholds(
      a.version, a.scores, if Lowered(gate, a.scores) != {} then trades + [TradeOf(gate, a)] else trades,
      ExtractionFloor(if file.Some? then file.value.extraction else map[], a.extraction),
      if a.rebaseline || file.None? then map[] else file.value.postgres)
  }

  function TradeOf(gate: Scores, a: Attempt): Trade {
    Trade(
      a.version, if a.trade.Some? then a.trade.value else "",
      map k | k in gate && Score(a.scores, k) < gate[k] :: (gate[k], Score(a.scores, k)),
      map k | k in gate && k in a.scores && a.scores[k] > gate[k] :: (gate[k], a.scores[k]))
  }

  function After(file: Option<Thresholds>, a: Attempt): Option<Thresholds> {
    if Accepted(file, a) then Some(Written(file, a)) else file
  }

  /** The memory benchmark's thresholds file. */
  class MemoryBench {
    var file: Option<Thresholds>

    method Lock(a: Attempt) returns (code: nat)
      modifies this
      ensures code == if Accepted(old(file), a) then 0 else 1
      ensures file == After(old(file), a)
    {
      var gate: Scores := if file.Some? then file.value.scores else map[];
      if a.rebaseline {
        if file.Some? && file.value.version == a.version {
          return 1;
        }
        gate := map[];
      } else if file.None? || file.value.version != a.version {
        return 1;
      }
      var lower := Lowered(gate, a.scores);
      var trades := if file.Some? then file.value.trades else [];
      if lower != {} {
        if a.trade.None? || a.trade.value == "" {
          return 1;
        }
        var problems := TradeProblems(gate, a.scores);
        if problems != [] {
          return 1;
        }
        trades := trades + [TradeOf(gate, a)];
      }
      var floor := ExtractionFloor(if file.Some? then file.value.extraction else map[], a.extraction);
      file := Some(Thresholds(a.version, a.scores, trades, floor,
                              if a.rebaseline || file.None? then map[] else file.value.postgres));
      return 0;
    }
  }

  /* ---- which locks are accepted ---- */

  /** The score is measured, and not below what it was. */
  predicate Stands(was: Scores, now: Scores, k: string) {
    k in was && k in now && now[k] >= was[k]
  }

  /** The score is measured, did not fall by more than 0.05, and if it fell is
      none of abstention. */
  predicate FallsLittle(was: Scores, now: Scores, k: string) {
    k in was && k in now && was[k] as real - now[k] as real <= 0.05
    && (k == "abstain.hit_rate" || k == "heldout.abstain.hit_rate" ==> now[k] >= was[k])
  }

  predicate Pays(was: Scores, now: Scores, k: string) {
    k in was && k in now && now[k] as real - was[k] as real >= 0.05
  }

  /** A lock writes the file exactly when the ratchet has no scores of its
      dataset and it is to begin them, or has them and each stands, or, with a
      reason given, each stands or falls a little and one pays for it; whatever
      the file holds besides, earlier trades included. */
  lemma AcceptedExactly(file: Option<Thresholds>, a: Attempt)
    ensures Accepted(file, a) <==>
              if file.None? || file.value.version != a.version then a.rebaseline
              else
                var was := file.value.scores;
                && !a.rebaseline
                && ((forall k | k in was :: Stands(was, a.scores, k))
                    || (a.trade.Some? && a.trade.value != ""
                        && (forall k | k in was :: FallsLittle(was, a.scores, k)) && exists k :: Pays(was, a.scores, k)))
  {
    if Measures(file, a.version) {
      var was, now := file.value.scores, a.scores;
      assert Lowered(was, now) == {} <==> forall k | k in was :: Stands(was, now, k) by {
        forall k | k in was ensures k in Lowered(was, now) <==> !Stands(was, now, k) {
        }
      }
      TradableExactly(was, now);
    }
  }

  lemma TradableExactly(was: Scores, now: Scores)
    ensures Tradable(was, now) <==>
              && (forall k | k in was :: FallsLittle(was, now, k))
              && ((forall k | k in was :: Stands(was, now, k)) || exists k :: Pays(was, now, k))
  {
    assert Lowered(was, now) == {} <==> forall k | k in was :: Stands(was, now, k) by {
      forall k | k in was ensures k in Lowered(was, now) <==> !Stands(was, now, k) {
      }
    }
    forall k | k in was
      ensures FallsLittle(was, now, k) <==>
                (Score(now, k) < was[k] ==> k !in NEVER_TRADED && k in now && was[k] - now[k] <= TRADE_MAX_DROP) {
    }
    assert (exists k :: Pays(was, now, k)) <==> exists k :: k in was && k in now && now[k] - was[k] >= TRADE_MIN_GAIN by {
      if k :| k in was && k in now && now[k] - was[k] >= TRADE_MIN_GAIN {
        assert Pays(was, now, k);
      }
    }
  }

  /** The trade names exactly what fell and what rose, with both values. */
  ghost predicate Records(t: Trade, was: Scores, now: Scores) {
    && (forall k :: k in t.lowered <==> k in was && !Stands(was, now, k))
    && (forall k | k in t.lowered :: t.lowered[k] == (was[k], Score(now, k)))
    && (forall k :: k in t.raised <==> k in was && k in now && now[k] > was[k])
    && (forall k | k in t.raised :: t.raised[k] == (was[k], now[k]))
  }

  /** What an accepted lock writes: today's scores, and one trade more exactly
      when a score of the same dataset did not stand. */
  lemma LockWrites(was: Thresholds, a: Attempt)
    requires Accepted(Some(was), a)
    ensures var now := After(Some(was), a).value;
            && now.version == a.version && now.scores == a.scores
            && if a.rebaseline || forall k | k in was.scores :: Stands(was.scores, a.scores, k) then now.trades == was.trades
               else
                 && |now.trades| == |was.trades| + 1 && now.trades[..|was.trades|] == was.trades
                 && now.trades[|was.trades|].version == was.version && a.trade == Some(now.trades[|was.trades|].reason)
                 && Records(now.trades[|was.trades|], was.scores, a.scores)
  {
    hide ExtractionFloor, Tradable;
    assert Lowered(was.scores, a.scores) == {} <==> forall k | k in was.scores :: Stands(was.scores, a.scores, k) by {
      forall k | k in was.scores ensures k in Lowered(was.scores, a.scores) <==> !Stands(was.scores, a.scores, k) {
      }
    }
    assert Lowered(map[], a.scores) == {};
  }

  /* ---- runs of locks on one dataset ---- */

  function Run(file: Option<Thresholds>, attempts: seq<Attempt>): Option<Thresholds> {
    if attempts == [] then file else After(Run(file, attempts[..|attempts| - 1]), attempts[|attempts| - 1])
  }

  /** The trades that name a score among what they lowered. */
  function Naming(trades: seq<Trade>, k: string): nat {
    if trades == [] then 0
    else Naming(trades[..|trades| - 1], k) + (if k in trades[|trades| - 1].lowered then 1 else 0)
  }

  lemma {:induction false} NamingSplit(a: seq<Trade>, b: seq<Trade>, k: string)
    ensures Naming(a + b, k) == Naming(a, k) + Naming(b, k)
  {
    if b == [] {
      assert a + b == a;
    } else {
      NamingSplit(a, b[..|b| - 1], k);
      assert (a + b)[..|a + b| - 1] == a + b[..|b| - 1];
    }
  }

  /** What one ratchet owes an earlier one of the same dataset: every score is
      still there; the abstention scores have not fallen; any other has fallen
      by at most 0.05 for each trade since that names it. */
  predicate Holds(was: Thresholds, now: Thresholds) {
    && now.version == was.version && was.trades <= now.trades
    && (forall k | k in was.scores ::
          && k in now.scores
          && (k in NEVER_TRADED ==> now.scores[k] >= was.scores[k])
          && was.scores[k] - now.scores[k] <= TRADE_MAX_DROP * (Naming(now.trades, k) - Naming(was.trades, k)) as real)
  }

  lemma AcceptedHolds(was: Thresholds, a: Attempt)
    requires a.version == was.version && Accepted(Some(was), a)
    ensures Holds(was, Written(Some(was), a))
  {
    var now := Written(Some(was), a);
    forall k | k in was.scores
      ensures k in now.scores && (k in NEVER_TRADED ==> now.scores[k] >= was.scores[k])
      ensures was.scores[k] - now.scores[k] <= TRADE_MAX_DROP * (Naming(now.trades, k) - Naming(was.trades, k)) as real {
      if k in Lowered(was.scores, a.scores) {
        NamingSplit(was.trades, [TradeOf(was.scores, a)], k);
        assert Naming([TradeOf(was.scores, a)], k) == 1;
      } else {
        assert Score(a.scores, k) >= was.scores[k];
        NamingGrows(was.trades, TradeOf(was.scores, a), k);
      }
    }
  }

  lemma NamingGrows(trades: seq<Trade>, t: Trade, k: string)
    ensures Naming(trades + [t], k) >= Naming(trades, k)
  {
    NamingSplit(trades, [t], k);
  }

  lemma HoldsTransitive(a: Thresholds, b: Thresholds, c: Thresholds)
    requires Holds(a, b) && Holds(b, c)
    ensures Holds(a, c)
  {
    hide Naming;
  }

  lemma HoldsSelf(a: Thresholds)
    ensures Holds(a, a)
  {
  }

  /** While the dataset stays at one version, no lock of any kind, rebaselines
      and refused ones included, loses more than its trades say. */
  lemma {:induction false} RatchetHolds(was: Thresholds, attempts: seq<Attempt>)
    requires forall i | 0 <= i < |attempts| :: attempts[i].version == was.version
    ensures Run(Some(was), attempts).Some? && Holds(was, Run(Some(was), attempts).value)
  {
    hide Holds, Accepted, Written;
    if attempts == [] {
      HoldsSelf(was);
      return;
    }
    RatchetHolds(was, attempts[..|attempts| - 1]);
    var mid, a := Run(Some(was), attempts[..|attempts| - 1]).value, attempts[|attempts| - 1];
    HoldsVersion(was, mid);
    if Accepted(Some(mid), a) {
      AcceptedHolds(mid, a);
      HoldsTransitive(was, mid, Written(Some(mid), a));
    }
  }

  lemma HoldsVersion(was: Thresholds, now: Thresholds)
    requires Holds(was, now)
    ensures now.version == was.version
  {
  }

  /** Where no trade names a score, it has not fallen; without any trade, no
      score has. */
  lemma NoTradeNoFall(was: Thresholds, now: Thresholds, k: string)
    requires Holds(was, now) && k in was.scores
    requires now.trades == was.trades || Naming(now.trades, k) == Naming(was.trades, k)
    ensures k in now.scores && now.scores[k] >= was.scores[k]
  {
    hide Naming;
  }

  /* ---- runs of locks over datasets ---- */

  /** The locks were made on datasets of these versions, in this order. */
  predicate Along(attempts: seq<Attempt>, versions: seq<nat>) {
    |attempts| == |versions| && forall i | 0 <= i < |attempts| :: attempts[i].version == versions[i]
  }

  /** The path of versions leaves one and later comes back to it. */
  ghost predicate ComesBack(version: nat, versions: seq<nat>) {
    exists i, j :: 0 <= i < j < |versions| && versions[i] != version && versions[j] == version
  }

  /** A ratchet of the same dataset owes the earlier one. */
  ghost predicate Kept(was: Thresholds, now: Option<Thresholds>) {
    now.Some? && (now.value.version == was.version ==> Holds(was, now.value))
  }

  /** No locks along the path, whatever they measure and however they are asked
      for, lose what the ratchet holds. */
  ghost predicate Guarded(was: Thresholds, versions: seq<nat>) {
    forall attempts | Along(attempts, versions) :: Kept(was, Run(Some(was), attempts))
  }

  lemma KeptOffPath(was: Thresholds, before: Option<Thresholds>, a: Attempt)
    requires Kept(was, before) && a.version != was.version
    ensures Kept(was, After(before, a))
  {
    hide Holds, Accepted;
  }

  lemma {:induction false} KeptOnPath(was: Thresholds, versions: seq<nat>, attempts: seq<Attempt>)
    requires Along(attempts, versions) && !ComesBack(was.version, versions)
    ensures Kept(was, Run(Some(was), attempts))
  {
    hide Holds, After;
    var n := |attempts| - 1;
    if attempts == [] {
      HoldsSelf(was);
    } else if versions[n] == was.version {
      forall i | 0 <= i < |attempts| ensures attempts[i].version == was.version {
        assert i < n && versions[i] != was.version ==> ComesBack(was.version, versions);
      }
      RatchetHolds(was, attempts);
    } else {
      KeptOnPath(was, versions[..n], attempts[..n]);
      KeptOffPath(was, Run(Some(was), attempts[..n]), attempts[n]);
    }
  }

  lemma {:induction false} TradesOnlyGrow(was: Thresholds, attempts: seq<Attempt>)
    ensures var now := Run(Some(was), attempts); now.Some? && was.trades <= now.value.trades
  {
    hide Accepted, TradeOf, Lowered, ExtractionFloor;
    if attempts != [] {
      TradesOnlyGrow(was, attempts[..|attempts| - 1]);
    }
  }

  /** A rebaseline that measured nothing, and a lock the ratchet refuses. */
  function Blank(version: nat): Attempt {
    Attempt(version, map[], map[], true, None)
  }

  function Refused(file: Option<Thresholds>, version: nat): Attempt {
    Attempt(version, map[], map[], Measures(file, version), None)
  }

  /** Locks along a path that are all refused, but for a blank rebaseline where
      it leaves and one where it comes back. */
  function Detour(file: Option<Thresholds>, versions: seq<nat>, i: nat, j: nat, n: nat): (attempts: seq<Attempt>)
    requires n <= |versions|
    ensures |attempts| == n
  {
    if n == 0 then []
    else
      var before := Detour(file, versions, i, j, n - 1);
      before + [if n - 1 == i || n - 1 == j then Blank(versions[n - 1]) else Refused(Run(file, before), versions[n - 1])]
  }

  lemma {:induction false} DetourAlong(file: Option<Thresholds>, versions: seq<nat>, i: nat, j: nat, n: nat)
    requires n <= |versions|
    ensures Along(Detour(file, versions, i, j, n), versions[..n])
    ensures forall k | 0 <= k < n :: Detour(file, versions, i, j, n)[k].trade == None
  {
    hide Run;
    if n > 0 {
      DetourAlong(file, versions, i, j, n - 1);
    }
  }

  lemma RunOneMore(file: Option<Thresholds>, attempts: seq<Attempt>, a: Attempt)
    ensures Run(file, attempts + [a]) == After(Run(file, attempts), a)
  {
    hide After;
    assert (attempts + [a])[..|attempts|] == attempts;
  }

  lemma BlankWrites(file: Option<Thresholds>, version: nat)
    requires file.Some? && file.value.version != version
    ensures var now := After(file, Blank(version));
            now.Some? && now.value.version == version && now.value.scores == map[] && now.value.trades == file.value.trades
  {
    assert Lowered(map[], map[]) == {};
  }

  lemma RefusedKeeps(file: Option<Thresholds>, version: nat)
    ensures After(file, Refused(file, version)) == file
  {
  }

  lemma {:induction false} DetourEnds(was: Thresholds, versions: seq<nat>, i: nat, j: nat, n: nat)
    requires i < j < |versions| && versions[i] != was.version && versions[j] == was.version && n <= |versions|
    ensures var now := Run(Some(was), Detour(Some(was), versions, i, j, n));
            if n <= i then now == Some(was)
            else now.Some? && now.value.version == (if n <= j then versions[i] else was.version)
                 && now.value.scores == map[] && now.value.trades == was.trades
  {
    hide After, Refused, Blank;
    if n > 0 {
      DetourEnds(was, versions, i, j, n - 1);
      var before := Detour(Some(was), versions, i, j, n - 1);
      var file := Run(Some(was), before);
      if n - 1 == i || n - 1 == j {
        BlankWrites(file, versions[n - 1]);
        RunOneMore(Some(was), before, Blank(versions[n - 1]));
      } else {
        RefusedKeeps(file, versions[n - 1]);
        RunOneMore(Some(was), before, Refused(file, versions[n - 1]));
      }
    }
  }

  /** Leaving a dataset and coming back loses its scores without a trade. */
  lemma DetourLoses(was: Thresholds, versions: seq<nat>) returns (attempts: seq<Attempt>)
    requires ComesBack(was.version, versions) && was.scores != map[]
    ensures Along(attempts, versions) && forall k | 0 <= k < |attempts| :: attempts[k].trade == None
    ensures var now := Run(Some(was), attempts);
            now.Some? && now.value.version == was.version && now.value.scores == map[] && !Kept(was, now)
  {
    hide After, Refused, Blank, Run;
    var i, j :| 0 <= i < j < |versions| && versions[i] != was.version && versions[j] == was.version;
    attempts := Detour(Some(was), versions, i, j, |versions|);
    DetourAlong(Some(was), versions, i, j, |versions|);
    DetourEnds(was, versions, i, j, |versions|);
    assert versions[..|versions|] == versions;
    var k :| k in was.scores;
  }

  /** What the ratchet guards over datasets, exactly: nothing measured on one is
      lost but by its trades if and only if the path of versions, once it has
      left that dataset, never comes back to it. */
  lemma GuardedExactly(was: Thresholds, versions: seq<nat>)
    ensures Guarded(was, versions) <==> was.scores == map[] || !ComesBack(was.version, versions)
  {
    hide Run;
    if was.scores != map[] && ComesBack(was.version, versions) {
      var attempts := DetourLoses(was, versions);
      assert !Guarded(was, versions);
    } else {
      forall attempts | Along(attempts, versions) ensures Kept(was, Run(Some(was), attempts)) {
        if was.scores == map[] {
          TradesOnlyGrow(was, attempts);
        } else {
          KeptOnPath(was, versions, attempts);
        }
      }
    }
  }

  /** The shortest such path: a score lowered at its own version without a
      trade, each step an accepted rebaseline. */
  lemma BackAndForthLowers() returns (was: Thresholds, attempts: seq<Attempt>)
    ensures var now := Run(Some(was), attempts);
            now.Some? && now.value.version == was.version && now.value.trades == was.trades
            && exists k :: k in was.scores && k in now.value.scores && now.value.scores[k] < was.scores[k]
  {
    was := Thresholds(1, map["recall" := 1.0], [], map[], map[]);
    var a := Attempt(2, map["recall" := 0.5], map[], true, None);
    var b := Attempt(1, map["recall" := 0.5], map[], true, None);
    attempts := [a, b];
    assert attempts[..1] == [a] && [a][..0] == [];
    assert Lowered(map[], a.scores) == {};
    assert Run(Some(was), []) == Some(was);
    assert Run(Some(was), [a]) == Some(Written(Some(was), a));
    assert Run(Some(was), attempts) == Some(Written(Some(Written(Some(was), a)), b));
    assert "recall" in was.scores;
  }

  /** Every recorded trade was paid for and took nothing from abstention. */
  predicate Fairly(t: Trade) {
    && t.lowered.Keys !! NEVER_TRADED && t.lowered != map[] && t.reason != ""
    && (forall k | k in t.lowered :: 0.0 < t.lowered[k].0 - t.lowered[k].1 <= TRADE_MAX_DROP)
    && exists k :: k in t.raised && t.raised[k].1 - t.raised[k].0 >= TRADE_MIN_GAIN
  }

  lemma {:induction false} TradesAreFair(file: Option<Thresholds>, attempts: seq<Attempt>)
    requires file.Some? ==> forall i | 0 <= i < |file.value.trades| :: Fairly(file.value.trades[i])
    ensures var now := Run(file, attempts);
            now.Some? ==> forall i | 0 <= i < |now.value.trades| :: Fairly(now.value.trades[i])
  {
    if attempts != [] {
      TradesAreFair(file, attempts[..|attempts| - 1]);
      var mid, a := Run(file, attempts[..|attempts| - 1]), attempts[|attempts| - 1];
      hide Fairly, Tradable;
      var gate := Gate(mid, a);
      if Accepted(mid, a) && Lowered(gate, a.scores) != {} {
        TradeIsFair(mid, a);
      }
    }
  }

  lemma TradeIsFair(file: Option<Thresholds>, a: Attempt)
    requires Accepted(file, a) && Lowered(Gate(file, a), a.scores) != {}
    ensures Fairly(TradeOf(Gate(file, a), a))
  {
    var gate := Gate(file, a);
    var t := TradeOf(gate, a);
    var l :| l in Lowered(gate, a.scores);
    assert l in t.lowered;
    var k :| k in gate && k in a.scores && a.scores[k] - gate[k] >= TRADE_MIN_GAIN;
    assert k in t.raised;
  }

  /* ---- the Postgres floors ---- */

  /** The ratchet was of the dataset after each of the locks. */
  ghost predicate NeverLeft(was: Thresholds, attempts: seq<Attempt>) {
    forall n | 0 <= n <= |attempts| :: Measures(Run(Some(was), attempts[..n]), was.version)
  }

  /** Over any locks the floors of the Postgres run are as they were while the
      ratchet stays on its dataset, and gone for good once it has left it. */
  lemma {:induction false} PostgresFloors(was: Thresholds, attempts: seq<Attempt>)
    ensures var now := Run(Some(was), attempts);
            now.Some? && now.value.postgres == if NeverLeft(was, attempts) then was.postgres else map[]
  {
    hide ExtractionFloor, TradeOf, Lowered, Tradable;
    var n := |attempts|;
    assert attempts[..n] == attempts;
    if attempts != [] {
      var init := attempts[..n - 1];
      PostgresFloors(was, init);
      assert NeverLeft(was, init) <==> forall k | 0 <= k < n :: Measures(Run(Some(was), attempts[..k]), was.version) by {
        assert forall k | 0 <= k < n :: init[..k] == attempts[..k];
      }
      if NeverLeft(was, init) {
        assert init[..n - 1] == init;
      }
    }
  }

  /* ---- the extraction floor ---- */

  /** A floor is kept, and not lowered, just when its score was measured today:
      one not measured loses its floor.  What was measured is its own floor or
      keeps the higher one it had. */
  lemma FloorKept(was: Scores, now: Scores, k: string)
    ensures k in ExtractionFloor(was, now) <==> k in now
    ensures k in was ==> (k in ExtractionFloor(was, now) && ExtractionFloor(was, now)[k] >= was[k] <==> k in now)
    ensures k in now ==>
              var floor := ExtractionFloor(was, now)[k];
              floor >= now[k] && (floor == now[k] || (k in was && floor == was[k]))
  {
  }

  /** So over any accepted locks, rebaselines too, a floor stands as long as
      every one of them measured it. */
  lemma {:induction false} FloorStands(file: Thresholds, attempts: seq<Attempt>, k: string)
    requires k in file.extraction && forall i | 0 <= i < |attempts| :: k in attempts[i].extraction
    ensures var now := Run(Some(file), attempts);
            now.Some? && k in now.value.extraction && now.value.extraction[k] >= file.extraction[k]
  {
    hide Accepted, TradeOf, Lowered, Tradable;
    if attempts != [] {
      FloorStands(file, attempts[..|attempts| - 1], k);
    }
  }

  /** Which of the locks measured the score. */
  predicate Measured(attempts: seq<Attempt>, k: string, measured: seq<bool>) {
    |attempts| == |measured| && forall i | 0 <= i < |attempts| :: (k in attempts[i].extraction <==> measured[i])
  }

  predicate FloorHeld(was: Thresholds, now: Option<Thresholds>, k: string)
    requires k in was.extraction
  {
    now.Some? && k in now.value.extraction && now.value.extraction[k] >= was.extraction[k]
  }

  /** Whatever else the locks measure and ask for, the floor stands. */
  ghost predicate FloorGuarded(was: Thresholds, k: string, measured: seq<bool>)
    requires k in was.extraction
  {
    forall attempts | Measured(attempts, k, measured) :: FloorHeld(was, Run(Some(was), attempts), k)
  }

  /** One accepted lock that does not measure the score, among refused ones. */
  function Unmeasured(was: Thresholds, k: string, measured: seq<bool>, i: nat): (attempts: seq<Attempt>)
    ensures |attempts| == |measured|
  {
    seq(|measured|, n requires 0 <= n < |measured| =>
      if n == i then Attempt(was.version, was.scores, map[], false, None)
      else Attempt(was.version, map[], if measured[n] then map[k := 0.0] else map[], true, None))
  }

  lemma AcceptedUnmeasured(was: Thresholds)
    ensures var now := After(Some(was), Attempt(was.version, was.scores, map[], false, None));
            now.Some? && now.value.version == was.version && now.value.extraction == map[]
  {
    assert Lowered(was.scores, was.scores) == {};
  }

  lemma RefusedRebaseline(file: Option<Thresholds>, a: Attempt)
    requires a.rebaseline && Measures(file, a.version)
    ensures After(file, a) == file
  {
  }

  lemma RunNothing(file: Option<Thresholds>)
    ensures Run(file, []) == file
  {
  }

  lemma {:induction false} UnmeasuredEnds(was: Thresholds, k: string, measured: seq<bool>, i: nat, n: nat)
    requires i < |measured| && n <= |measured|
    ensures var now := Run(Some(was), Unmeasured(was, k, measured, i)[..n]);
            now.Some? && now.value.version == was.version && (if n <= i then now.value == was else k !in now.value.extraction)
  {
    hide Run, After;
    var attempts := Unmeasured(was, k, measured, i);
    if n == 0 {
      RunNothing(Some(was));
      assert attempts[..0] == [];
    } else {
      UnmeasuredEnds(was, k, measured, i, n - 1);
      var file := Run(Some(was), attempts[..n - 1]);
      assert attempts[..n] == attempts[..n - 1] + [attempts[n - 1]];
      RunOneMore(Some(was), attempts[..n - 1], attempts[n - 1]);
      if n - 1 == i {
        AcceptedUnmeasured(was);
      } else {
        RefusedRebaseline(file, attempts[n - 1]);
      }
    }
  }

  /** A floor is safe over a run of locks if and only if every one measures its
      score. */
  lemma FloorGuardedExactly(was: Thresholds, k: string, measured: seq<bool>)
    requires k in was.extraction
    ensures FloorGuarded(was, k, measured) <==> forall i | 0 <= i < |measured| :: measured[i]
  {
    hide Run;
    if i :| 0 <= i < |measured| && !measured[i] {
      var attempts := Unmeasured(was, k, measured, i);
      UnmeasuredEnds(was, k, measured, i, |measured|);
      assert attempts[..|measured|] == attempts;
      assert !FloorGuarded(was, k, measured);
    } else {
      forall attempts | Measured(attempts, k, measured) ensures FloorHeld(was, Run(Some(was), attempts), k) {
        FloorStands(was, attempts, k);
      }
    }
  }

  /** One lock that did not measure it lets the floor fall in the next. */
  lemma FloorForgotten() returns (was: Thresholds, attempts: seq<Attempt>)
    ensures |attempts| == 2 && (forall i | 0 <= i < 2 :: attempts[i].version == was.version && !attempts[i].rebaseline)
    ensures var now := Run(Some(was), attempts);
            now.Some? && exists k :: k in was.extraction && k in now.value.extraction && now.value.extraction[k] < was.extraction[k]
  {
    was := Thresholds(1, map[], [], map["facts" := 0.9], map[]);
    var a := Attempt(1, map[], map[], false, None);
    var b := Attempt(1, map[], map["facts" := 0.1], false, None);
    attempts := [a, b];
    assert attempts[..1] == [a] && [a][..0] == [];
    assert Lowered(map[], map[]) == {};
    assert Run(Some(was), []) == Some(was);
    assert Run(Some(was), [a]) == Some(Written(Some(was), a));
    assert Run(Some(was), attempts) == Some(Written(Some(Written(Some(was), a)), b));
    assert "facts" in was.extraction;
  }

  /* ---- the ratchet without trades ---- */

  datatype Plain = Plain(version: nat, scores: Scores)

  predicate PlainAccepted(file: Option<Plain>, version: nat, scores: Scores, rebaseline: bool) {
    var same := file.Some? && file.value.version == version;
    if rebaseline then !same else same && forall k | k in file.value.scores :: k in scores && scores[k] >= file.value.scores[k]
  }

  /** The knowledge benchmark's thresholds file: a lock is accepted exactly
      when it loses nothing, or begins another dataset. */
  class KnowledgeBench {
    var file: Option<Plain>

    method Lock(version: nat, scores: Scores, rebaseline: bool) returns (code: nat)
      modifies this
      ensures code == if PlainAccepted(old(file), version, scores, rebaseline) then 0 else 1
      ensures file == if code == 0 then Some(Plain(version, scores)) else old(file)
    {
      var gate: Scores := if file.Some? then file.value.scores else map[];
      if rebaseline {
        if file.Some? && file.value.version == version {
          return 1;
        }
        gate := map[];
      } else if file.None? || file.value.version != version {
        return 1;
      }
      var lower := Lowered(gate, scores);
      if lower != {} {
        var k :| k in lower;
        return 1;
      }
      forall k | k in gate ensures k in scores && scores[k] >= gate[k] {
        assert k !in lower;
      }
      file := Some(Plain(version, scores));
      return 0;
    }
  }

  function PlainRun(file: Option<Plain>, attempts: seq<Attempt>): Option<Plain> {
    if attempts == [] then file
    else
      var before, a := PlainRun(file, attempts[..|attempts| - 1]), attempts[|attempts| - 1];
      if PlainAccepted(before, a.version, a.scores, a.rebaseline) then Some(Plain(a.version, a.scores)) else before
  }

  /** Without trades, no score measured on a dataset falls or goes while the
      dataset stays, whatever locks are tried. */
  lemma {:induction false} PlainNeverFalls(was: Plain, attempts: seq<Attempt>)
    requires forall i | 0 <= i < |attempts| :: attempts[i].version == was.version
    ensures var now := PlainRun(Some(was), attempts);
            && now.Some? && now.value.version == was.version
            && forall k | k in was.scores :: k in now.value.scores && now.value.scores[k] >= was.scores[k]
  {
    if attempts != [] {
      PlainNeverFalls(was, attempts[..|attempts| - 1]);
    }
  }

  /** The file without what only the memory benchmark keeps. */
  function Bare(file: Option<Thresholds>): Option<Plain> {
    if file.Some? then Some(Plain(file.value.version, file.value.scores)) else None
  }

  function Untraded(a: Attempt): Attempt {
    a.(trade := None)
  }

  function AllUntraded(attempts: seq<Attempt>): (untraded: seq<Attempt>)
    ensures |untraded| == |attempts| && forall i | 0 <= i < |attempts| :: untraded[i] == Untraded(attempts[i])
  {
    seq(|attempts|, i requires 0 <= i < |attempts| => Untraded(attempts[i]))
  }

  /** The plain ratchet is the other one when no trade is offered. */
  lemma {:induction false} PlainIsUntraded(file: Option<Thresholds>, attempts: seq<Attempt>)
    ensures PlainRun(Bare(file), attempts) == Bare(Run(file, AllUntraded(attempts)))
    ensures file.Some? ==>
              var now := Run(file, AllUntraded(attempts)); now.Some? && now.value.trades == file.value.trades
  {
    hide After, PlainAccepted, Accepted;
    if attempts != [] {
      var init, a := attempts[..|attempts| - 1], attempts[|attempts| - 1];
      PlainIsUntraded(file, init);
      assert AllUntraded(attempts)[..|attempts| - 1] == AllUntraded(init);
      PlainStep(Run(file, AllUntraded(init)), a);
    }
  }

  lemma PlainStep(file: Option<Thresholds>, a: Attempt)
    ensures PlainAccepted(Bare(file), a.version, a.scores, a.rebaseline) <==> Accepted(file, Untraded(a))
    ensures Bare(After(file, Untraded(a))) ==
              if Accepted(file, Untraded(a)) then Some(Plain(a.version, a.scores)) else Bare(file)
    ensures file.Some? ==> var now := After(file, Untraded(a)); now.Some? && now.value.trades == file.value.trades
  {
    hide ExtractionFloor, TradeOf, Tradable;
    if file.Some? && !a.rebaseline {
      forall k | k in file.value.scores
        ensures k in a.scores && a.scores[k] >= file.value.scores[k] <==> k !in Lowered(file.value.scores, a.scores) {
      }
    }
  }

  predicate PlainKept(was: Plain, now: Option<Plain>) {
    && now.Some?
    && (now.value.version == was.version ==>
          forall k | k in was.scores :: k in now.value.scores && now.value.scores[k] >= was.scores[k])
  }

  ghost predicate PlainGuarded(was: Plain, versions: seq<nat>) {
    forall attempts | Along(attempts, versions) :: PlainKept(was, PlainRun(Some(was), attempts))
  }

  lemma KeptIsPlain(was: Thresholds, now: Option<Thresholds>)
    requires Kept(was, now) && now.value.trades == was.trades
    ensures PlainKept(Plain(was.version, was.scores), Bare(now))
  {
    if now.value.version == was.version {
      forall k | k in was.scores ensures k in now.value.scores && now.value.scores[k] >= was.scores[k] {
        NoTradeNoFall(was, now.value, k);
      }
    }
  }

  /** Without trades the same holds of the knowledge benchmark: no score of a
      dataset falls or goes, whatever locks are tried, if and only if the path
      of versions never comes back to it. */
  lemma PlainGuardedExactly(was: Plain, versions: seq<nat>)
    ensures PlainGuarded(was, versions) <==> was.scores == map[] || !ComesBack(was.version, versions)
  {
    hide Run, PlainRun, Kept;
    var full := Thresholds(was.version, was.scores, [], map[], map[]);
    if was.scores != map[] && ComesBack(was.version, versions) {
      var attempts := DetourLoses(full, versions);
      PlainIsUntraded(Some(full), attempts);
      assert AllUntraded(attempts) == attempts;
      var k :| k in was.scores;
      assert !PlainGuarded(was, versions);
    } else {
      forall attempts | Along(attempts, versions) ensures PlainKept(was, PlainRun(Some(was), attempts)) {
        var untraded := AllUntraded(attempts);
        assert Along(untraded, versions);
        GuardedExactly(full, versions);
        assert Kept(full, Run(Some(full), untraded));
        PlainIsUntraded(Some(full), attempts);
        assert Run(Some(full), untraded).Some? by { TradesOnlyGrow(full, untraded); }
        KeptIsPlain(full, Run(Some(full), untraded));
      }
    }
  }
}
