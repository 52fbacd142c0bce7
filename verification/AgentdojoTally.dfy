/** The tallies of the injection benchmark (scripts/agentdojo_bench.py): what
    `analyze` counts from the run logs of a suite, and what `build_report`
    pools over suites.  A log is what the counting reads of it: the runs'
    texts, and the search for markers in them, are not part of this model. */
module AgentdojoTally {
  datatype Option<+T> = None | Some(value: T)

  datatype Condition = Undefended | Spotlighting | Fence

  /** `directory` is the pipeline folder; a condition is read from its name,
      if one is in it. */
  datatype Log = Log(
    task: string, directory: nat, condition: Option<Condition>, won: bool, done: bool, error: bool,
    acted: bool, discussed: bool, capped: bool, size: nat)

  datatype Row = Row(
    n: nat, won: nat, done: nat, errors: nat, acted: nat, discussed: nat, capped: nat, largest: nat)

  datatype Cell = Cell(n: nat, acted: nat, scored: nat)

  type Key = (string, Condition)

  /** What is counted of a log; no row keeps the last two. */
  datatype Field = Runs | Won | Done | Errors | Acted | Discussed | Capped | WonCapped | LostUncapped

  predicate Has(f: Field, l: Log) {
    match f
    case Runs => true
    case Won => l.won
    case Done => l.done
    case Errors => l.error
    case Acted => l.acted
    case Discussed => l.discussed && !l.acted
    case Capped => l.capped
    case WonCapped => l.won && l.capped
    case LostUncapped => !l.won && !l.capped
  }

  predicate Counted(l: Log, marked: set<string>) {
    l.task in marked && l.condition.Some?
  }

  predicate Counts(l: Log, marked: set<string>, c: Condition, task: Option<string>, f: Field) {
    Counted(l, marked) && l.condition == Some(c) && (task.None? || l.task == task.value) && Has(f, l)
  }

  /** How many logs of a condition, of one injection task or of all, have it. */
  function Tally(logs: seq<Log>, marked: set<string>, c: Condition, task: Option<string>, f: Field): nat {
    if logs == [] then 0
    else
      Tally(logs[..|logs| - 1], marked, c, task, f)
      + (if Counts(logs[|logs| - 1], marked, c, task, f) then 1 else 0)
  }

  function Largest(logs: seq<Log>, marked: set<string>, c: Condition): nat {
    if logs == [] then 0
    else
      var l, before := logs[|logs| - 1], Largest(logs[..|logs| - 1], marked, c);
      if Counts(l, marked, c, None, Runs) && l.size > before then l.size else before
  }

  function RowOf(logs: seq<Log>, marked: set<string>, c: Condition): Row {
    Row(Tally(logs, marked, c, None, Runs), Tally(logs, marked, c, None, Won), Tally(logs, marked, c, None, Done),
        Tally(logs, marked, c, None, Errors), Tally(logs, marked, c, None, Acted), Tally(logs, marked, c, None, Discussed),
        Tally(logs, marked, c, None, Capped), Largest(logs, marked, c))
  }

  function CellOf(logs: seq<Log>, marked: set<string>, task: string, c: Condition): Cell {
    Cell(Tally(logs, marked, c, Some(task), Runs), Tally(logs, marked, c, Some(task), Acted),
         Tally(logs, marked, c, Some(task), Won))
  }

  function One(b: bool): nat {
    if b then 1 else 0
  }

  const NO_ROW := Row(0, 0, 0, 0, 0, 0, 0, 0)
  const NO_CELL := Cell(0, 0, 0)

  function RowAt(rows: map<Condition, Row>, c: Condition): Row {
    if c in rows then rows[c] else NO_ROW
  }

  function CellAt(cells: map<Key, Cell>, task: string, c: Condition): Cell {
    if (task, c) in cells then cells[(task, c)] else NO_CELL
  }

  function AddToRow(r: Row, l: Log): Row {
    Row(r.n + 1, r.won + One(l.won), r.done + One(l.done), r.errors + One(l.error), r.acted + One(l.acted),
        r.discussed + One(l.discussed && !l.acted), r.capped + One(l.capped), if l.size > r.largest then l.size else r.largest)
  }

  function AddToCell(t: Cell, l: Log): Cell {
    Cell(t.n + 1, t.acted + One(l.acted), t.scored + One(l.won))
  }

  lemma TallyOneMore(logs: seq<Log>, l: Log, marked: set<string>, c: Condition, task: Option<string>)
    ensures forall f :: Tally(logs + [l], marked, c, task, f) == Tally(logs, marked, c, task, f) + One(Counts(l, marked, c, task, f))
  {
    assert (logs + [l])[..|logs|] == logs;
  }

  lemma RowOneMore(logs: seq<Log>, l: Log, marked: set<string>, c: Condition)
    ensures RowOf(logs + [l], marked, c) ==
              if Counts(l, marked, c, None, Runs) then AddToRow(RowOf(logs, marked, c), l) else RowOf(logs, marked, c)
  {
    hide Tally;
    TallyOneMore(logs, l, marked, c, None);
    assert (logs + [l])[..|logs|] == logs;
  }

  lemma CellOneMore(logs: seq<Log>, l: Log, marked: set<string>, task: string, c: Condition)
    ensures CellOf(logs + [l], marked, task, c) ==
              if Counts(l, marked, c, Some(task), Runs) then AddToCell(CellOf(logs, marked, task, c), l) else CellOf(logs, marked, task, c)
  {
    hide Tally;
    TallyOneMore(logs, l, marked, c, Some(task));
  }

  ghost predicate RowsRight(rows: map<Condition, Row>, logs: seq<Log>, marked: set<string>) {
    forall c :: RowAt(rows, c) == RowOf(logs, marked, c) && (c in rows <==> RowOf(logs, marked, c).n > 0)
  }

  ghost predicate CellsRight(cells: map<Key, Cell>, logs: seq<Log>, marked: set<string>) {
    forall task, c :: CellAt(cells, task, c) == CellOf(logs, marked, task, c)
                      && ((task, c) in cells <==> CellOf(logs, marked, task, c).n > 0)
  }

  function FoldersOf(logs: seq<Log>, marked: set<string>, c: Condition): set<nat> {
    set l | l in logs && Counts(l, marked, c, None, Runs) :: l.directory
  }

  function Unmatched(logs: seq<Log>, marked: set<string>): set<nat> {
    set l | l in logs && l.task in marked && l.condition.None? :: l.directory
  }

  function FoldersAt(folders: map<Condition, set<nat>>, c: Condition): set<nat> {
    if c in folders then folders[c] else {}
  }

  ghost predicate FoldersRight(folders: map<Condition, set<nat>>, logs: seq<Log>, marked: set<string>) {
    forall c :: FoldersAt(folders, c) == FoldersOf(logs, marked, c)
  }

  lemma RowStep(rows: map<Condition, Row>, logs: seq<Log>, l: Log, marked: set<string>)
    requires RowsRight(rows, logs, marked)
    ensures if Counted(l, marked) then RowsRight(rows[l.condition.value := AddToRow(RowAt(rows, l.condition.value), l)], logs + [l], marked)
            else RowsRight(rows, logs + [l], marked)
  {
    hide RowOf, CellOf;
    var more := if Counted(l, marked) then rows[l.condition.value := AddToRow(RowAt(rows, l.condition.value), l)] else rows;
    forall c ensures RowAt(more, c) == RowOf(logs + [l], marked, c) && (c in more <==> RowOf(logs + [l], marked, c).n > 0) {
      RowOneMore(logs, l, marked, c);
      assert RowAt(rows, c) == RowOf(logs, marked, c);
    }
  }

  lemma CellStep(cells: map<Key, Cell>, logs: seq<Log>, l: Log, marked: set<string>)
    requires CellsRight(cells, logs, marked)
    ensures if Counted(l, marked) then
              CellsRight(cells[(l.task, l.condition.value) := AddToCell(CellAt(cells, l.task, l.condition.value), l)], logs + [l], marked)
            else CellsRight(cells, logs + [l], marked)
  {
    hide RowOf, CellOf;
    var more := if Counted(l, marked) then
                  cells[(l.task, l.condition.value) := AddToCell(CellAt(cells, l.task, l.condition.value), l)] else cells;
    forall task, c
      ensures CellAt(more, task, c) == CellOf(logs + [l], marked, task, c)
      ensures (task, c) in more <==> CellOf(logs + [l], marked, task, c).n > 0 {
      CellOneMore(logs, l, marked, task, c);
      assert CellAt(cells, task, c) == CellOf(logs, marked, task, c);
    }
  }

  lemma FolderStep(folders: map<Condition, set<nat>>, logs: seq<Log>, l: Log, marked: set<string>)
    requires FoldersRight(folders, logs, marked)
    ensures if Counted(l, marked) then
              FoldersRight(folders[l.condition.value := FoldersAt(folders, l.condition.value) + {l.directory}], logs + [l], marked)
            else FoldersRight(folders, logs + [l], marked)
  {
    var c0 := if l.condition.Some? then l.condition.value else Undefended;
    var more := if Counted(l, marked) then folders[c0 := FoldersAt(folders, c0) + {l.directory}] else folders;
    forall c ensures FoldersAt(more, c) == FoldersOf(logs + [l], marked, c) {
      assert FoldersAt(folders, c) == FoldersOf(logs, marked, c);
      assert FoldersOf(logs + [l], marked, c)
             == FoldersOf(logs, marked, c) + (if Counts(l, marked, c, None, Runs) then {l.directory} else {});
    }
  }

  lemma NoLogs(marked: set<string>)
    ensures RowsRight(map[], [], marked) && CellsRight(map[], [], marked) && FoldersRight(map[], [], marked)
  {
  }

  /** The counting loop: a row for each condition seen, a cell for each
      injection task and condition seen, each the tally of the logs, and the
      pipeline folders pooled into a row. */
  method Analyze(logs: seq<Log>, marked: set<string>)
    returns (rows: map<Condition, Row>, cells: map<Key, Cell>, folders: map<Condition, set<nat>>, unmatched: set<nat>)
    ensures RowsRight(rows, logs, marked) && CellsRight(cells, logs, marked) && FoldersRight(folders, logs, marked)
    ensures unmatched == Unmatched(logs, marked)
  {
    hide RowsRight, CellsRight, FoldersRight, AddToRow, AddToCell, RowAt, CellAt;
    rows, cells, folders, unmatched := map[], map[], map[], {};
    NoLogs(marked);
    for i := 0 to |logs|
      invariant RowsRight(rows, logs[..i], marked) && CellsRight(cells, logs[..i], marked)
      invariant FoldersRight(folders, logs[..i], marked) && unmatched == Unmatched(logs[..i], marked)
    {
      var l := logs[i];
      assert logs[..i + 1] == logs[..i] + [l];
      RowStep(rows, logs[..i], l, marked);
      CellStep(cells, logs[..i], l, marked);
      FolderStep(folders, logs[..i], l, marked);
      if l.task in marked {
        if l.condition.None? {
          unmatched := unmatched + {l.directory};
        } else {
          var c := l.condition.value;
          folders := folders[c := FoldersAt(folders, c) + {l.directory}];
          rows := rows[c := AddToRow(RowAt(rows, c), l)];
          cells := cells[(l.task, c) := AddToCell(CellAt(cells, l.task, c), l)];
        }
      }
    }
    assert logs[..|logs|] == logs;
  }

  /* ---- what a row says ---- */

  /** The logs of the condition, of one injection task or of all that have
      markers. */
  function Of(logs: seq<Log>, marked: set<string>, c: Condition, task: Option<string>): set<nat> {
    set i | 0 <= i < |logs| && logs[i].task in marked && logs[i].condition == Some(c) && (task == None || task == Some(logs[i].task))
  }

  function With(logs: seq<Log>, marked: set<string>, c: Condition, task: Option<string>, f: Field): set<nat> {
    set i | 0 <= i < |logs| && Counts(logs[i], marked, c, task, f)
  }

  lemma WithOneMore(logs: seq<Log>, marked: set<string>, c: Condition, task: Option<string>, f: Field)
    requires logs != []
    ensures var n := |logs| - 1;
            && n !in With(logs[..n], marked, c, task, f)
            && With(logs, marked, c, task, f) == With(logs[..n], marked, c, task, f) + if Counts(logs[n], marked, c, task, f) then {n} else {}
  {
    hide Counts;
    var n := |logs| - 1;
    forall i ensures i in With(logs, marked, c, task, f) <==>
                       i in With(logs[..n], marked, c, task, f) || (i == n && Counts(logs[n], marked, c, task, f)) {
    }
  }

  lemma {:induction false} TallyCounts(logs: seq<Log>, marked: set<string>, c: Condition, task: Option<string>, f: Field)
    ensures Tally(logs, marked, c, task, f) == |With(logs, marked, c, task, f)|
  {
    hide Counts, With;
    if logs == [] {
      NoneWith(marked, c, task, f);
    } else {
      TallyCounts(logs[..|logs| - 1], marked, c, task, f);
      WithOneMore(logs, marked, c, task, f);
    }
  }

  lemma NoneWith(marked: set<string>, c: Condition, task: Option<string>, f: Field)
    ensures With([], marked, c, task, f) == {}
  {
  }

  lemma {:induction false} LargestIs(logs: seq<Log>, marked: set<string>, c: Condition)
    ensures forall i | i in Of(logs, marked, c, None) :: logs[i].size <= Largest(logs, marked, c)
    ensures Largest(logs, marked, c) == 0 || exists i :: i in Of(logs, marked, c, None) && logs[i].size == Largest(logs, marked, c)
  {
    if logs != [] {
      var n := |logs| - 1;
      LargestIs(logs[..n], marked, c);
      assert forall i | i in Of(logs, marked, c, None) :: i == n || (i in Of(logs[..n], marked, c, None) && logs[..n][i] == logs[i]);
      if i :| i in Of(logs[..n], marked, c, None) && logs[..n][i].size == Largest(logs[..n], marked, c) {
        assert i in Of(logs, marked, c, None);
      }
    }
  }

  /** Each figure of a row is the number of the condition's logs for which it
      holds, a log discussed only when it did not act; and the largest size. */
  lemma RowCounts(logs: seq<Log>, marked: set<string>, c: Condition)
    ensures var r := RowOf(logs, marked, c);
            var of := Of(logs, marked, c, None);
            && r.n == |of|
            && r.won == |set i | i in of && logs[i].won|
            && r.done == |set i | i in of && logs[i].done|
            && r.errors == |set i | i in of && logs[i].error|
            && r.acted == |set i | i in of && logs[i].acted|
            && r.discussed == |set i | i in of && logs[i].discussed && !logs[i].acted|
            && r.capped == |set i | i in of && logs[i].capped|
            && (forall i | i in of :: logs[i].size <= r.largest)
            && (r.largest == 0 || exists i :: i in of && logs[i].size == r.largest)
  {
    hide Tally, Largest, With;
    LargestIs(logs, marked, c);
    forall f ensures Tally(logs, marked, c, None, f) == |With(logs, marked, c, None, f)| {
      TallyCounts(logs, marked, c, None, f);
    }
    WithEach(logs, marked, c, None);
  }

  lemma CellCounts(logs: seq<Log>, marked: set<string>, task: string, c: Condition)
    ensures var t := CellOf(logs, marked, task, c);
            var of := Of(logs, marked, c, Some(task));
            t.n == |of| && t.acted == |set i | i in of && logs[i].acted| && t.scored == |set i | i in of && logs[i].won|
  {
    hide Tally, With;
    forall f ensures Tally(logs, marked, c, Some(task), f) == |With(logs, marked, c, Some(task), f)| {
      TallyCounts(logs, marked, c, Some(task), f);
    }
    WithEach(logs, marked, c, Some(task));
  }

  lemma WithEach(logs: seq<Log>, marked: set<string>, c: Condition, task: Option<string>)
    ensures var of := Of(logs, marked, c, task);
            && With(logs, marked, c, task, Runs) == of
            && With(logs, marked, c, task, Won) == (set i | i in of && logs[i].won)
            && With(logs, marked, c, task, Done) == (set i | i in of && logs[i].done)
            && With(logs, marked, c, task, Errors) == (set i | i in of && logs[i].error)
            && With(logs, marked, c, task, Acted) == (set i | i in of && logs[i].acted)
            && With(logs, marked, c, task, Discussed) == (set i | i in of && logs[i].discussed && !logs[i].acted)
            && With(logs, marked, c, task, Capped) == (set i | i in of && logs[i].capped)
  {
  }

  /** Every run of an injection task that has markers is in its condition's row
      and folders, or, without a condition, its folder is named as unmatched;
      and no other folder is. */
  lemma NoRunIgnored(logs: seq<Log>, marked: set<string>, folder: nat)
    ensures forall c :: folder in FoldersOf(logs, marked, c) <==> exists i :: i in Of(logs, marked, c, None) && logs[i].directory == folder
    ensures folder in Unmatched(logs, marked) <==>
              exists i :: 0 <= i < |logs| && logs[i].task in marked && logs[i].condition == None && logs[i].directory == folder
    ensures forall i | 0 <= i < |logs| && logs[i].task in marked ::
              logs[i].condition == None || i in Of(logs, marked, logs[i].condition.value, None)
  {
    forall c ensures folder in FoldersOf(logs, marked, c) <==> exists i :: i in Of(logs, marked, c, None) && logs[i].directory == folder {
      if l :| l in logs && Counts(l, marked, c, None, Runs) && l.directory == folder {
        var i :| 0 <= i < |logs| && logs[i] == l;
        assert i in Of(logs, marked, c, None);
      }
    }
    if l :| l in logs && l.task in marked && l.condition.None? && l.directory == folder {
      var i :| 0 <= i < |logs| && logs[i] == l;
    }
  }

  /* ---- conservation ---- */

  function SumOverTasks(logs: seq<Log>, marked: set<string>, c: Condition, tasks: seq<string>, f: Field): nat {
    if tasks == [] then 0
    else
      SumOverTasks(logs, marked, c, tasks[..|tasks| - 1], f) + Tally(logs, marked, c, Some(tasks[|tasks| - 1]), f)
  }

  predicate Distinct(tasks: seq<string>) {
    forall i, j | 0 <= i < j < |tasks| :: tasks[i] != tasks[j]
  }

  lemma {:induction false} SumOneMore(logs: seq<Log>, l: Log, marked: set<string>, c: Condition, tasks: seq<string>, f: Field)
    requires Distinct(tasks)
    ensures SumOverTasks(logs + [l], marked, c, tasks, f)
            == SumOverTasks(logs, marked, c, tasks, f) + One(l.task in tasks && Counts(l, marked, c, None, f))
  {
    if tasks != [] {
      SumOneMore(logs, l, marked, c, tasks[..|tasks| - 1], f);
      assert (logs + [l])[..|logs|] == logs;
    }
  }

  lemma {:induction false} SumOfNone(marked: set<string>, c: Condition, tasks: seq<string>, f: Field)
    ensures SumOverTasks([], marked, c, tasks, f) == 0
  {
    if tasks != [] {
      SumOfNone(marked, c, tasks[..|tasks| - 1], f);
    }
  }

  /** A condition's total is the sum over its injection tasks, for every list
      of them without repeats: no run is counted twice or lost. */
  lemma {:induction false} TasksSum(logs: seq<Log>, marked: set<string>, c: Condition, tasks: seq<string>, f: Field)
    requires Distinct(tasks) && forall task | task in marked :: task in tasks
    ensures Tally(logs, marked, c, None, f) == SumOverTasks(logs, marked, c, tasks, f)
  {
    if logs == [] {
      SumOfNone(marked, c, tasks, f);
    } else {
      var init, l := logs[..|logs| - 1], logs[|logs| - 1];
      TasksSum(init, marked, c, tasks, f);
      SumOneMore(init, l, marked, c, tasks, f);
      assert init + [l] == logs;
    }
  }

  /** "Acted" and "discussed but did not act" are disjoint, so together they
      never exceed the runs; nor does any other count. */
  lemma {:induction false} EngagedAtMostRuns(logs: seq<Log>, marked: set<string>, c: Condition, task: Option<string>)
    ensures var n := Tally(logs, marked, c, task, Runs);
            && Tally(logs, marked, c, task, Acted) + Tally(logs, marked, c, task, Discussed) <= n
            && forall f :: Tally(logs, marked, c, task, f) <= n
  {
    if logs != [] {
      EngagedAtMostRuns(logs[..|logs| - 1], marked, c, task);
    }
  }

  /* ---- the share that leaves capped runs out ---- */

  /** `asr_excluding_capped` before it is rounded, in percent: all wins over the
      runs that did not reach the iteration cap. */
  function ExcludingCapped(r: Row): Option<real> {
    if r.n > r.capped then Some(100.0 * r.won as real / (r.n - r.capped) as real) else None
  }

  lemma {:induction false} WonAndCapped(logs: seq<Log>, marked: set<string>, c: Condition, task: Option<string>)
    ensures Tally(logs, marked, c, task, Won) + Tally(logs, marked, c, task, Capped) + Tally(logs, marked, c, task, LostUncapped)
            == Tally(logs, marked, c, task, Runs) + Tally(logs, marked, c, task, WonCapped)
  {
    if logs != [] {
      WonAndCapped(logs[..|logs| - 1], marked, c, task);
    }
  }

  /** The figure is a share if and only if at most as many capped runs won as
      uncapped ones lost, and the uncapped runs' own share of wins if and only
      if no capped run won. */
  lemma ExcludingCappedExactly(logs: seq<Log>, marked: set<string>, c: Condition)
    requires ExcludingCapped(RowOf(logs, marked, c)).Some?
    ensures var share := ExcludingCapped(RowOf(logs, marked, c)).value;
            var wonCapped, lostUncapped := Tally(logs, marked, c, None, WonCapped), Tally(logs, marked, c, None, LostUncapped);
            var r := RowOf(logs, marked, c);
            && r.won >= wonCapped
            && (0.0 <= share <= 100.0 <==> wonCapped <= lostUncapped)
            && (share == 100.0 * (r.won - wonCapped) as real / (r.n - r.capped) as real <==> wonCapped == 0)
  {
    hide Tally;
    var r, wonCapped := RowOf(logs, marked, c), Tally(logs, marked, c, None, WonCapped);
    WonAndCapped(logs, marked, c, None);
    WonCappedAreWon(logs, marked, c);
    Percent(r.won as real, (r.n - r.capped) as real, (r.won - wonCapped) as real);
  }

  lemma {:induction false} WonCappedAreWon(logs: seq<Log>, marked: set<string>, c: Condition)
    ensures Tally(logs, marked, c, None, WonCapped) <= Tally(logs, marked, c, None, Won)
  {
    if logs != [] {
      WonCappedAreWon(logs[..|logs| - 1], marked, c);
    }
  }

  lemma Percent(won: real, n: real, other: real)
    requires n > 0.0 && won >= 0.0
    ensures 0.0 <= 100.0 * won / n <= 100.0 <==> won <= n
    ensures 100.0 * won / n == 100.0 * other / n <==> won == other
  {
    var share, second := 100.0 * won / n, 100.0 * other / n;
    assert share * n == 100.0 * won && second * n == 100.0 * other;
    if won <= n {
      assert share <= 100.0;
    }
  }

  /** One capped run and one not, both won: the figure is 200. */
  lemma TwoHundredPercent(marked: set<string>, task: string) returns (logs: seq<Log>)
    requires task in marked
    ensures ExcludingCapped(RowOf(logs, marked, Undefended)) == Some(200.0)
  {
    var capped := Log(task, 0, Some(Undefended), true, false, false, true, false, true, 0);
    var short := capped.(capped := false);
    logs := [capped, short];
    assert logs[..1] == [capped] && logs[..1][..0] == [];
    assert forall f :: Tally([], marked, Undefended, None, f) == 0;
    assert forall f :: Tally([capped], marked, Undefended, None, f) == One(Has(f, capped)) by {
      TallyOneMore([], capped, marked, Undefended, None);
      assert [] + [capped] == [capped];
    }
    TallyOneMore([capped], short, marked, Undefended, None);
    assert [capped] + [short] == logs;
  }

  /* ---- pooling over suites ---- */

  /** A suite's logs and the injection tasks that have markers. */
  datatype Suite = Suite(logs: seq<Log>, marked: set<string>)

  datatype Pooled = Pooled(n: nat, won: nat, acted: nat, engaged: nat, capped: nat)

  function SumOverSuites(suites: seq<Suite>, c: Condition, f: Field): nat {
    if suites == [] then 0
    else
      var s := suites[|suites| - 1];
      SumOverSuites(suites[..|suites| - 1], c, f) + Tally(s.logs, s.marked, c, None, f)
  }

  function PooledOf(suites: seq<Suite>, c: Condition): Pooled {
    Pooled(SumOverSuites(suites, c, Runs), SumOverSuites(suites, c, Won), SumOverSuites(suites, c, Acted),
           SumOverSuites(suites, c, Acted) + SumOverSuites(suites, c, Discussed), SumOverSuites(suites, c, Capped))
  }

  /** The names, each where it comes first: a dictionary's keys. */
  function Once(names: seq<string>): (once: seq<string>)
    ensures forall name :: name in once <==> name in names
    ensures Distinct(once)
  {
    if names == [] then []
    else
      var before := Once(names[..|names| - 1]);
      if names[|names| - 1] in before then before else before + [names[|names| - 1]]
  }

  function SuitesOf(names: seq<string>, suite: string -> Suite): (suites: seq<Suite>)
    ensures |suites| == |names| && forall i | 0 <= i < |names| :: suites[i] == suite(names[i])
  {
    seq(|names|, i requires 0 <= i < |names| => suite(names[i]))
  }

  type Reports = map<string, map<Condition, Row>>

  function RowsIn(reports: Reports, name: string): map<Condition, Row> {
    if name in reports then reports[name] else map[]
  }

  ghost predicate ReportsRight(reports: Reports, names: seq<string>, suite: string -> Suite) {
    forall name | name in names :: RowsRight(RowsIn(reports, name), suite(name).logs, suite(name).marked)
  }

  /** The suites' rows, and the pooled row of each condition that some suite
      ran.  A suite named twice is analysed twice and pooled once. */
  method BuildReport(names: seq<string>, suite: string -> Suite)
    returns (reports: Reports, pooled: map<Condition, Pooled>)
    ensures ReportsRight(reports, names, suite)
    ensures forall c :: c in pooled <==> exists name | name in names :: c in RowsIn(reports, name)
    ensures forall c | c in pooled :: pooled[c] == PooledOf(SuitesOf(Once(names), suite), c) && pooled[c].n > 0
  {
    hide RowsRight;
    reports := map[];
    var order: seq<string> := [];
    for i := 0 to |names|
      invariant order == Once(names[..i]) && ReportsRight(reports, names[..i], suite)
    {
      assert names[..i + 1][..i] == names[..i] && names[..i + 1] == names[..i] + [names[i]];
      var name := names[i];
      var rows, cells, folders, unmatched := Analyze(suite(name).logs, suite(name).marked);
      if name !in order {
        order := order + [name];
      }
      reports := if rows == map[] then reports - {name} else reports[name := rows];
    }
    assert names[..|names|] == names;
    pooled := map[];
    var conditions := [Undefended, Spotlighting, Fence];
    EveryCondition();
    for k := 0 to 3
      invariant forall c :: c in pooled <==> c in conditions[..k] && exists name | name in names :: c in RowsIn(reports, name)
      invariant forall c | c in pooled :: pooled[c] == PooledOf(SuitesOf(order, suite), c) && pooled[c].n > 0
    {
      assert conditions[..k + 1] == conditions[..k] + [conditions[k]];
      var ran, total := Pool(order, suite, reports, conditions[k]);
      if ran {
        pooled := pooled[conditions[k] := total];
      }
    }
    assert conditions[..3] == conditions;
  }

  lemma EveryCondition()
    ensures forall c: Condition :: c in [Undefended, Spotlighting, Fence]
  {
    var all := [Undefended, Spotlighting, Fence];
    assert all[0] == Undefended && all[1] == Spotlighting && all[2] == Fence;
    forall c: Condition ensures c in all {
      assert c.Undefended? || c.Spotlighting? || c.Fence?;
    }
  }

  function AddToPooled(p: Pooled, r: Row): Pooled {
    Pooled(p.n + r.n, p.won + r.won, p.acted + r.acted, p.engaged + r.acted + r.discussed, p.capped + r.capped)
  }

  lemma OneSuiteMore(suites: seq<Suite>, c: Condition, i: nat)
    requires i < |suites|
    ensures var row := RowOf(suites[i].logs, suites[i].marked, c);
            && PooledOf(suites[..i + 1], c) == AddToPooled(PooledOf(suites[..i], c), row)
            && (row.n == 0 ==> PooledOf(suites[..i + 1], c) == PooledOf(suites[..i], c))
  {
    assert suites[..i + 1][..i] == suites[..i];
    EngagedAtMostRuns(suites[i].logs, suites[i].marked, c, None);
  }

  method Pool(names: seq<string>, suite: string -> Suite, reports: Reports, c: Condition) returns (ran: bool, total: Pooled)
    requires ReportsRight(reports, names, suite)
    ensures ran <==> exists name | name in names :: c in RowsIn(reports, name)
    ensures total == PooledOf(SuitesOf(names, suite), c) && (ran ==> total.n > 0)
  {
    hide RowOf, PooledOf;
    ran, total := false, Pooled(0, 0, 0, 0, 0);
    NoSuites(c);
    ghost var suites := SuitesOf(names, suite);
    for i := 0 to |names|
      invariant ran <==> exists name | name in names[..i] :: c in RowsIn(reports, name)
      invariant total == PooledOf(suites[..i], c) && (ran ==> total.n > 0)
    {
      assert names[..i + 1] == names[..i] + [names[i]];
      OneSuiteMore(suites, c, i);
      var rows := RowsIn(reports, names[i]);
      assert RowsRight(rows, suites[i].logs, suites[i].marked);
      assert RowAt(rows, c) == RowOf(suites[i].logs, suites[i].marked, c);
      if c in rows {
        ran := true;
        total := AddToPooled(total, rows[c]);
      }
    }
    assert suites[..|suites|] == suites && names[..|names|] == names;
  }

  /** What is pooled of two groups of suites is the sum of what is of each, and
      of one suite its row, engaged those that acted or discussed. */
  lemma {:induction false} PooledAdds(a: seq<Suite>, b: seq<Suite>, c: Condition)
    ensures var p, q, r := PooledOf(a, c), PooledOf(b, c), PooledOf(a + b, c);
            r == Pooled(p.n + q.n, p.won + q.won, p.acted + q.acted, p.engaged + q.engaged, p.capped + q.capped)
    ensures |b| == 1 ==>
              var p, row := PooledOf(b, c), RowOf(b[0].logs, b[0].marked, c);
              p.n == row.n && p.won == row.won && p.acted == row.acted && p.engaged == row.acted + row.discussed && p.capped == row.capped
  {
    hide Tally;
    if b == [] {
      assert a + b == a;
    } else {
      PooledAdds(a, b[..|b| - 1], c);
      assert (a + b)[..|a + b| - 1] == a + b[..|b| - 1];
    }
  }

  lemma NoSuites(c: Condition)
    ensures PooledOf([], c) == Pooled(0, 0, 0, 0, 0)
  {
  }

  /** Every pooled count is at most the pooled runs, so each share the report
      and its tests use is one. */
  lemma {:induction false} PooledAtMostRuns(suites: seq<Suite>, c: Condition)
    ensures var p := PooledOf(suites, c);
            p.won <= p.n && p.acted <= p.engaged <= p.n && p.capped <= p.n
  {
    if suites != [] {
      var s := suites[|suites| - 1];
      PooledAtMostRuns(suites[..|suites| - 1], c);
      EngagedAtMostRuns(s.logs, s.marked, c, None);
    }
  }

  /** The share x/n is between two bounds. */
  predicate Share(low: real, high: real, n: nat, x: nat) {
    low * n as real <= x as real <= high * n as real
  }

  /** The pooled share is weighted by the runs: when every suite's share is
      between two bounds, so is the pooled one. */
  lemma {:induction false} PooledBetween(suites: seq<Suite>, c: Condition, f: Field, low: real, high: real)
    requires forall i | 0 <= i < |suites| ::
               Share(low, high, Tally(suites[i].logs, suites[i].marked, c, None, Runs), Tally(suites[i].logs, suites[i].marked, c, None, f))
    ensures Share(low, high, SumOverSuites(suites, c, Runs), SumOverSuites(suites, c, f))
  {
    hide Share, Tally;
    if suites == [] {
      NoShare(low, high);
      return;
    }
    var init, s := suites[..|suites| - 1], suites[|suites| - 1];
    PooledBetween(init, c, f, low, high);
    ShareAdds(low, high, SumOverSuites(init, c, Runs), SumOverSuites(init, c, f),
              Tally(s.logs, s.marked, c, None, Runs), Tally(s.logs, s.marked, c, None, f));
  }

  lemma NoShare(low: real, high: real)
    ensures Share(low, high, 0, 0)
  {
  }

  lemma ShareAdds(low: real, high: real, n: nat, x: nat, m: nat, y: nat)
    requires Share(low, high, n, x) && Share(low, high, m, y)
    ensures Share(low, high, n + m, x + y)
  {
    Weighted(low, high, n as real, x as real, m as real, y as real);
    assert (n + m) as real == n as real + m as real;
  }

  lemma Weighted(low: real, high: real, n: real, x: real, m: real, y: real)
    requires low * n <= x <= high * n && low * m <= y <= high * m
    ensures low * (n + m) <= x + y <= high * (n + m)
  {
  }
}
