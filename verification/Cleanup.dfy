/** The convergent cleanup of a live install
    (scripts/cleanup_live_leftovers.py): a plan read without writing, a
    receipt of every row it will delete, then the changes store by store, any
    of which another program may keep locked in any run.  The product's own
    functions (forgetting, invalidating) are one atomic operation each. */
module Cleanup {
  type Id = nat

  datatype Tier = Kept | Archived | Forgotten
  datatype Episode = Episode(chat: string, key: nat, tier: Tier)

  /** Local memory; the ledger keeps what was forgotten from being written
      again. */
  datatype Memory = Memory(episodes: map<Id, Episode>, facts: map<Id, bool>, ledger: set<nat>)

  datatype MirrorRow = MirrorRow(chat: string, key: nat, created: int)
  datatype Row = Row(id: string, thread: string, status: string, day: string)

  datatype PgTable = Checkpoints | CheckpointWrites | CheckpointBlobs | ChatSessions

  datatype Target = Snapshots | Gates | Ledgers | CronJobs | Artifacts | SwarmTasks | SwarmMetrics

  const TARGETS := [Snapshots, Gates, Ledgers, CronJobs, Artifacts, SwarmTasks, SwarmMetrics]

  datatype Receipt = MirrorReceipt(id: Id, mirrored: MirrorRow) | PgReceipt(table: PgTable, row: Row) | SqliteReceipt(target: Target, row: Row)

  /** What the script names: nothing is matched by pattern. */
  datatype Names = Names(
    chats: seq<string>, ledgers: set<string>, gates: set<string>, notes: set<Id>, facts: set<Id>,
    job: string, from: int, until: int, day: string, strays: set<string>)

  /** A store that does not exist is not in `sqlite`. */
  datatype World = World(
    memory: Memory, mirror: map<Id, MirrorRow>, chatStore: map<PgTable, set<Row>>, sqlite: map<Target, set<Row>>,
    files: set<string>, moved: set<string>, receipts: set<Receipt>)

  datatype Plan = Plan(
    chatMemories: set<Id>, notes: set<Id>, facts: set<Id>, junk: map<Id, MirrorRow>, restore: map<Id, MirrorRow>,
    chatStore: map<PgTable, set<Row>>, sqlite: map<Target, set<Row>>, files: set<string>)

  /** Which stores other programs hold in one run.  A memory step that fails
      does so at some operation. */
  datatype Locks = Locks(
    unreadable: set<Target>, memory: bool, failAt: nat, mirror: bool, chatStore: bool, sqlite: set<Target>, files: set<string>)

  datatype Left = MemoryLeft | MirrorLeft | ChatStoreLeft | SqliteLeft(target: Target) | FileLeft(name: string)

  /** The WHERE clause of each SQLite target. */
  predicate Hits(names: Names, t: Target, r: Row) {
    match t
    case Snapshots => r.thread in names.chats
    case Gates => r.thread in names.chats || r.thread in names.gates
    case Ledgers => r.thread in names.ledgers
    case CronJobs => r.id == names.job && r.thread == "live-remind" && r.status == "done"
    case Artifacts => r.thread == "live-x"
    case SwarmTasks => r.day == names.day
    case SwarmMetrics => r.day == names.day
  }

  function Hit(names: Names, t: Target, rows: set<Row>): set<Row> {
    set r | r in rows && Hits(names, t, r)
  }

  function OfChats(names: Names, rows: set<Row>): set<Row> {
    set r | r in rows && r.thread in names.chats
  }

  /** The mirror rows a test run wrote: not in local memory, and of its day. */
  predicate Junk(names: Names, w: World, id: Id) {
    id in w.mirror && id !in w.memory.episodes && names.from <= w.mirror[id].created < names.until
  }

  predicate MirrorOnly(names: Names, w: World, id: Id) {
    id in w.mirror && id !in w.memory.episodes && !(names.from <= w.mirror[id].created < names.until)
  }

  predicate Targeted(names: Names, m: Memory, id: Id) {
    id in m.episodes && m.episodes[id].tier != Forgotten && (m.episodes[id].chat in names.chats || id in names.notes)
  }

  function PlanOf(names: Names, w: World, unreadable: set<Target>): Plan {
    Plan(
      set id | id in w.memory.episodes && w.memory.episodes[id].chat in names.chats && w.memory.episodes[id].tier != Forgotten,
      set id | id in names.notes && id in w.memory.episodes && w.memory.episodes[id].tier != Forgotten,
      set id | id in names.facts && id in w.memory.facts && w.memory.facts[id],
      map id | id in w.mirror && Junk(names, w, id) :: w.mirror[id],
      map id | id in w.mirror && MirrorOnly(names, w, id) :: w.mirror[id],
      map t | t in w.chatStore :: OfChats(names, w.chatStore[t]),
      map t | t in w.sqlite && t !in unreadable :: Hit(names, t, w.sqlite[t]),
      w.files * names.strays)
  }

  function ReceiptOf(plan: Plan): set<Receipt> {
    (set id | id in plan.junk :: MirrorReceipt(id, plan.junk[id]))
    + (set t, r | t in plan.chatStore && r in plan.chatStore[t] :: PgReceipt(t, r))
    + (set t, r | t in plan.sqlite && r in plan.sqlite[t] :: SqliteReceipt(t, r))
  }

  /* ---- local memory ---- */

  /** The episodes of the chats, and the notes, are forgotten: emptied, and in
      the ledger.  One of them already forgotten stays as it is. */
  function Forgot(m: Memory, chats: seq<string>, notes: set<Id>): Memory {
    m.(episodes := map id | id in m.episodes ::
         if m.episodes[id].chat in chats || id in notes then m.episodes[id].(tier := Forgotten) else m.episodes[id],
       ledger := m.ledger
         + set id | id in m.episodes && m.episodes[id].tier != Forgotten && (m.episodes[id].chat in chats || id in notes)
           :: m.episodes[id].key)
  }

  function Invalidated(m: Memory, facts: set<Id>): Memory {
    m.(facts := map id | id in m.facts.Keys + facts :: if id in facts then false else m.facts[id])
  }

  /** Rows only the mirror held are put back, unless the ledger refuses them. */
  function Restored(m: Memory, rows: map<Id, MirrorRow>): Memory {
    var back := set id | id in rows && rows[id].key !in m.ledger;
    m.(episodes := map id | id in m.episodes.Keys + back ::
         if id in m.episodes then m.episodes[id] else Episode(rows[id].chat, rows[id].key, Archived))
  }

  /** Local memory once the chats, notes, facts and mirror rows so far are
      done. */
  function Worked(m: Memory, chats: seq<string>, notes: set<Id>, facts: set<Id>, rows: map<Id, MirrorRow>): Memory {
    Restored(Invalidated(Forgot(m, chats, notes), facts), rows)
  }

  function MemoryDone(names: Names, plan: Plan, m: Memory): Memory {
    Worked(m, names.chats, plan.notes, plan.facts, plan.restore)
  }

  predicate Targets(names: Names, plan: Plan, m: Memory, id: Id) {
    id in m.episodes && m.episodes[id].tier != Forgotten && (m.episodes[id].chat in names.chats || id in plan.notes)
  }

  /** What a memory step that failed partway may have done: only some of what
      it was to do. */
  ghost predicate MemoryPart(names: Names, plan: Plan, m: Memory, n: Memory) {
    && (forall id | id in m.episodes ::
          id in n.episodes
          && (n.episodes[id] == m.episodes[id]
              || ((m.episodes[id].chat in names.chats || id in plan.notes)
                  && n.episodes[id] == m.episodes[id].(tier := Forgotten))))
    && m.ledger <= n.ledger
    && (forall key | key in n.ledger && key !in m.ledger ::
          exists id :: Targets(names, plan, m, id) && m.episodes[id].key == key)
    && (forall id | id in m.facts :: id in n.facts && (n.facts[id] == m.facts[id] || (id in plan.facts && !n.facts[id])))
    && (forall id | id in n.facts && id !in m.facts :: id in plan.facts)
    && (forall id | id in n.episodes && id !in m.episodes ::
          && id in plan.restore && plan.restore[id].key !in m.ledger
          && n.episodes[id] == Episode(plan.restore[id].chat, plan.restore[id].key, Archived))
  }

  lemma WorkedPart(names: Names, plan: Plan, m: Memory, i: nat, notes: set<Id>, facts: set<Id>,
                   rows: map<Id, MirrorRow>)
    requires i <= |names.chats| && notes <= plan.notes && facts <= plan.facts
    requires forall id | id in rows :: id in plan.restore && rows[id] == plan.restore[id]
    ensures MemoryPart(names, plan, m, Worked(m, names.chats[..i], notes, facts, rows))
  {
    var n := Worked(m, names.chats[..i], notes, facts, rows);
    assert forall c | c in names.chats[..i] :: c in names.chats;
    forall key | key in n.ledger && key !in m.ledger
      ensures exists id :: Targets(names, plan, m, id) && m.episodes[id].key == key {
      var id :| id in m.episodes && m.episodes[id].tier != Forgotten
                && (m.episodes[id].chat in names.chats[..i] || id in notes) && m.episodes[id].key == key;
      assert Targets(names, plan, m, id);
    }
  }

  /* one operation more */

  lemma OneChat(m: Memory, chats: seq<string>, i: nat)
    requires i < |chats|
    ensures Forgot(Forgot(m, chats[..i], {}), [chats[i]], {}) == Forgot(m, chats[..i + 1], {})
  {
    assert chats[..i + 1] == chats[..i] + [chats[i]];
    var a, b := Forgot(Forgot(m, chats[..i], {}), [chats[i]], {}), Forgot(m, chats[..i + 1], {});
    assert a.episodes == b.episodes;
    forall key ensures key in a.ledger <==> key in b.ledger {
      if id :| id in m.episodes && m.episodes[id].tier != Forgotten && m.episodes[id].chat in chats[..i + 1] && m.episodes[id].key == key {
        var e := Forgot(m, chats[..i], {}).episodes[id];
        assert m.episodes[id].chat in chats[..i] || (e.tier != Forgotten && e.chat in [chats[i]] && e.key == key);
      }
    }
  }

  lemma OneNote(m: Memory, chats: seq<string>, notes: set<Id>, id: Id)
    ensures Forgot(Forgot(m, chats, notes), [], {id}) == Forgot(m, chats, notes + {id})
  {
    var a, b := Forgot(Forgot(m, chats, notes), [], {id}), Forgot(m, chats, notes + {id});
    assert a.episodes == b.episodes;
    forall key ensures key in a.ledger <==> key in b.ledger {
      if x :| x in m.episodes && m.episodes[x].tier != Forgotten
              && (m.episodes[x].chat in chats || x in notes + {id}) && m.episodes[x].key == key {
        var e := Forgot(m, chats, notes).episodes[x];
        assert (m.episodes[x].chat in chats || x in notes) || (e.tier != Forgotten && x in {id} && e.key == key);
      }
    }
  }

  lemma OneRow(m: Memory, rows: map<Id, MirrorRow>, id: Id, row: MirrorRow)
    requires id !in rows
    ensures Restored(Restored(m, rows), map[id := row]) == Restored(m, rows[id := row])
  {
  }

  lemma NothingWorked(m: Memory)
    ensures Forgot(m, [], {}) == m && Invalidated(m, {}) == m && Restored(m, map[]) == m
  {
  }

  /* ---- what a run leaves ---- */

  predicate PlannedFor(plan: Plan, t: Target) {
    t in plan.sqlite && plan.sqlite[t] != {}
  }

  predicate ChatsPlanned(plan: Plan) {
    exists t :: t in plan.chatStore && plan.chatStore[t] != {}
  }

  function SqliteAfter(names: Names, sqlite: map<Target, set<Row>>, plan: Plan, locks: Locks): map<Target, set<Row>> {
    map t | t in sqlite ::
      if PlannedFor(plan, t) && t !in locks.sqlite then sqlite[t] - Hit(names, t, sqlite[t]) else sqlite[t]
  }

  function ChatStoreAfter(names: Names, store: map<PgTable, set<Row>>, plan: Plan, locks: Locks): map<PgTable, set<Row>> {
    if ChatsPlanned(plan) && !locks.chatStore then map t | t in store :: store[t] - OfChats(names, store[t]) else store
  }

  /** The stores after the memory step: each on its own. */
  function StoresAfter(names: Names, w: World, plan: Plan, locks: Locks): World {
    w.(mirror := if locks.mirror then w.mirror else w.mirror - plan.junk.Keys,
       chatStore := ChatStoreAfter(names, w.chatStore, plan, locks),
       sqlite := SqliteAfter(names, w.sqlite, plan, locks),
       files := w.files - (plan.files - locks.files),
       moved := w.moved + (plan.files - locks.files))
  }

  function SqliteLefts(plan: Plan, locks: Locks): set<Left> {
    set t | t in TARGETS && PlannedFor(plan, t) && t in locks.sqlite :: SqliteLeft(t)
  }

  function PgLefts(plan: Plan, locks: Locks): set<Left> {
    (if plan.junk != map[] && locks.mirror then {MirrorLeft} else {})
    + (if ChatsPlanned(plan) && locks.chatStore then {ChatStoreLeft} else {})
  }

  function FileLefts(plan: Plan, locks: Locks): set<Left> {
    set name | name in plan.files && name in locks.files :: FileLeft(name)
  }

  function Lefts(plan: Plan, locks: Locks): set<Left> {
    if locks.memory then {MemoryLeft} else PgLefts(plan, locks) + SqliteLefts(plan, locks) + FileLefts(plan, locks)
  }

  /** One run that applies a plan: the stores it may leave. */
  ghost predicate Applies(names: Names, w: World, plan: Plan, locks: Locks, u: World) {
    var noted := w.(receipts := w.receipts + ReceiptOf(plan));
    if locks.memory then
      u == noted.(memory := u.memory) && MemoryPart(names, plan, w.memory, u.memory)
    else
      u == StoresAfter(names, noted.(memory := MemoryDone(names, plan, w.memory)), plan, locks)
  }

  /** The install's stores and the script's steps over them. */
  class Install {
    var memory: Memory
    var mirror: map<Id, MirrorRow>
    var chatStore: map<PgTable, set<Row>>
    var sqlite: map<Target, set<Row>>
    var files: set<string>
    var moved: set<string>
    var receipts: set<Receipt>

    ghost function View(): World
      reads this
    {
      World(memory, mirror, chatStore, sqlite, files, moved, receipts)
    }

    /** The mirror's rows that local memory does not hold, by their day. */
    method ReadMirror(names: Names) returns (junk: map<Id, MirrorRow>, restore: map<Id, MirrorRow>)
      ensures junk == map id | id in mirror && Junk(names, View(), id) :: mirror[id]
      ensures restore == map id | id in mirror && MirrorOnly(names, View(), id) :: mirror[id]
    {
      junk, restore := map[], map[];
      var rows := mirror.Keys;
      while rows != {}
        invariant rows <= mirror.Keys
        invariant junk == map id | id in mirror && id !in rows && Junk(names, View(), id) :: mirror[id]
        invariant restore == map id | id in mirror && id !in rows && MirrorOnly(names, View(), id) :: mirror[id]
        decreases rows
      {
        var id :| id in rows;
        rows := rows - {id};
        if id !in memory.episodes {
          if names.from <= mirror[id].created < names.until {
            junk := junk[id := mirror[id]];
          } else {
            restore := restore[id := mirror[id]];
          }
        }
      }
    }

    /** The rows of each SQLite target; one that cannot be read is skipped. */
    method ReadSqlite(names: Names, unreadable: set<Target>) returns (planned: map<Target, set<Row>>)
      ensures planned == map t | t in sqlite && t !in unreadable :: Hit(names, t, sqlite[t])
    {
      hide Hit;
      planned := map[];
      for i := 0 to |TARGETS|
        invariant planned == map t | t in TARGETS[..i] && t in sqlite && t !in unreadable :: Hit(names, t, sqlite[t])
      {
        assert TARGETS[..i + 1] == TARGETS[..i] + [TARGETS[i]];
        var t := TARGETS[i];
        if t in sqlite && t !in unreadable {
          planned := planned[t := Hit(names, t, sqlite[t])];
        }
      }
      assert TARGETS[..|TARGETS|] == TARGETS;
      EveryTarget();
    }

    /** What the stores hold of the names; nothing is written. */
    method BuildPlan(names: Names, unreadable: set<Target>) returns (plan: Plan)
      ensures plan == PlanOf(names, View(), unreadable)
    {
      hide Junk, MirrorOnly, Hit, OfChats;
      var chatMemories := set id | id in memory.episodes && memory.episodes[id].chat in names.chats && memory.episodes[id].tier != Forgotten;
      var notes := set id | id in names.notes && id in memory.episodes && memory.episodes[id].tier != Forgotten;
      var facts := set id | id in names.facts && id in memory.facts && memory.facts[id];
      var junk, restore := ReadMirror(names);
      var chats := map t | t in chatStore :: OfChats(names, chatStore[t]);
      var planned := ReadSqlite(names, unreadable);
      plan := Plan(chatMemories, notes, facts, junk, restore, chats, planned, files * names.strays);
    }

    /** Steps 1 to 4 in local memory, one operation at a time. */
    method ApplyMemory(names: Names, plan: Plan, fails: bool, failAt: nat) returns (ok: bool)
      modifies this`memory
      ensures ok == !fails && MemoryPart(names, plan, old(memory), memory)
      ensures ok ==> memory == MemoryDone(names, plan, old(memory))
    {
      hide Forgot, Invalidated, Restored, MemoryPart;
      ghost var m := memory;
      var n := 0;
      NothingWorked(m);
      assert names.chats[..0] == [];
      for i := 0 to |names.chats|
        invariant memory == Forgot(m, names.chats[..i], {})
      {
        if fails && n == failAt {
          Partly(names, plan, m, i, {}, {}, map[]);
          return false;
        }
        OneChat(m, names.chats, i);
        memory, n := Forgot(memory, [names.chats[i]], {}), n + 1;
      }
      assert names.chats[..|names.chats|] == names.chats;
      var todo := plan.notes;
      assert plan.notes - todo == {};
      while todo != {}
        invariant todo <= plan.notes && memory == Forgot(m, names.chats, plan.notes - todo)
        decreases todo
      {
        if fails && n == failAt {
          Partly(names, plan, m, |names.chats|, plan.notes - todo, {}, map[]);
          return false;
        }
        var id :| id in todo;
        OneNote(m, names.chats, plan.notes - todo, id);
        assert plan.notes - todo + {id} == plan.notes - (todo - {id});
        memory, todo, n := Forgot(memory, [], {id}), todo - {id}, n + 1;
      }
      assert plan.notes - {} == plan.notes;
      ghost var forgot := memory;
      todo := plan.facts;
      NothingWorked(forgot);
      assert plan.facts - todo == {};
      while todo != {}
        invariant todo <= plan.facts && memory == Invalidated(forgot, plan.facts - todo)
        decreases todo
      {
        if fails && n == failAt {
          Partly(names, plan, m, |names.chats|, plan.notes, plan.facts - todo, map[]);
          return false;
        }
        var id :| id in todo;
        OneFact(forgot, plan.facts - todo, id);
        assert plan.facts - todo + {id} == plan.facts - (todo - {id});
        memory, todo, n := Invalidated(memory, {id}), todo - {id}, n + 1;
      }
      assert plan.facts - {} == plan.facts;
      ghost var before := memory;
      todo := plan.restore.Keys;
      NothingWorked(before);
      assert plan.restore - todo == map[];
      while todo != {}
        invariant todo <= plan.restore.Keys && memory == Restored(before, plan.restore - todo)
        decreases todo
      {
        if fails && n == failAt {
          Partly(names, plan, m, |names.chats|, plan.notes, plan.facts, plan.restore - todo);
          return false;
        }
        var id :| id in todo;
        OneRow(before, plan.restore - todo, id, plan.restore[id]);
        assert (plan.restore - todo)[id := plan.restore[id]] == plan.restore - (todo - {id});
        memory, todo, n := Restored(memory, map[id := plan.restore[id]]), todo - {id}, n + 1;
      }
      assert plan.restore - {} == plan.restore;
      Partly(names, plan, m, |names.chats|, plan.notes, plan.facts, plan.restore);
      ok := !fails;
    }

    /** One store's rows in one write transaction: all of them, or none when
        another program holds the write lock. */
    method DeleteRows(names: Names, t: Target, locked: bool) returns (ok: bool)
      requires t in sqlite
      modifies this`sqlite
      ensures ok == !locked
      ensures sqlite == if ok then old(sqlite)[t := old(sqlite[t]) - Hit(names, t, old(sqlite[t]))] else old(sqlite)
    {
      if locked {
        return false;
      }
      sqlite := sqlite[t := sqlite[t] - Hit(names, t, sqlite[t])];
      return true;
    }

    /** The mirror, then the chat store: a failure leaves that database as it
        was. */
    method ApplyPostgres(names: Names, plan: Plan, locks: Locks) returns (left: set<Left>)
      modifies this`mirror, this`chatStore
      ensures mirror == if locks.mirror then old(mirror) else old(mirror) - plan.junk.Keys
      ensures chatStore == ChatStoreAfter(names, old(chatStore), plan, locks)
      ensures left == PgLefts(plan, locks)
    {
      hide OfChats;
      left := {};
      if plan.junk != map[] {
        if locks.mirror {
          left := left + {MirrorLeft};
        } else {
          mirror := mirror - plan.junk.Keys;
        }
      } else {
        assert mirror - plan.junk.Keys == mirror;
      }
      if exists t :: t in plan.chatStore && plan.chatStore[t] != {} {
        if locks.chatStore {
          left := left + {ChatStoreLeft};
        } else {
          chatStore := map t | t in chatStore :: chatStore[t] - OfChats(names, chatStore[t]);
        }
      }
    }

    method ApplySqlite(names: Names, plan: Plan, locks: Locks) returns (left: set<Left>)
      requires plan.sqlite.Keys <= sqlite.Keys
      modifies this`sqlite
      ensures sqlite == SqliteAfter(names, old(sqlite), plan, locks)
      ensures left == SqliteLefts(plan, locks)
    {
      hide Hit, PlannedFor;
      left := {};
      for i := 0 to |TARGETS|
        invariant sqlite.Keys == old(sqlite).Keys
        invariant forall t | t in sqlite ::
                    sqlite[t] == if t in TARGETS[..i] then SqliteAfter(names, old(sqlite), plan, locks)[t] else old(sqlite)[t]
        invariant left == set t | t in TARGETS[..i] && PlannedFor(plan, t) && t in locks.sqlite :: SqliteLeft(t)
      {
        assert TARGETS[..i + 1] == TARGETS[..i] + [TARGETS[i]];
        var t := TARGETS[i];
        DistinctTargets(i);
        if PlannedFor(plan, t) {
          PlannedExists(plan, t);
          var ok := DeleteRows(names, t, t in locks.sqlite);
          if !ok {
            left := left + {SqliteLeft(t)};
          }
        }
      }
      assert TARGETS[..|TARGETS|] == TARGETS;
      EveryTarget();
    }

    method MoveFiles(plan: Plan, locks: Locks) returns (left: set<Left>)
      modifies this`files, this`moved
      ensures files == old(files) - (plan.files - locks.files) && moved == old(moved) + (plan.files - locks.files)
      ensures left == FileLefts(plan, locks)
    {
      left := {};
      var todo := plan.files;
      while todo != {}
        invariant todo <= plan.files
        invariant files == old(files) - (plan.files - todo - locks.files)
        invariant moved == old(moved) + (plan.files - todo - locks.files)
        invariant left == set name | name in plan.files && name !in todo && name in locks.files :: FileLeft(name)
        decreases todo
      {
        var name :| name in todo;
        todo := todo - {name};
        if name in locks.files {
          left := left + {FileLeft(name)};
        } else {
          files, moved := files - {name}, moved + {name};
        }
      }
    }

    /** Make the changes: the receipt first, then local memory, and only when
        that is done the other stores. */
    method Apply(names: Names, plan: Plan, locks: Locks) returns (left: set<Left>)
      requires plan.sqlite.Keys <= sqlite.Keys
      modifies this
      ensures Applies(names, old(View()), plan, locks, View())
      ensures left == Lefts(plan, locks)
    {
      hide MemoryPart, MemoryDone, PgLefts, SqliteLefts, FileLefts, SqliteAfter, ChatStoreAfter, ReceiptOf;
      receipts := receipts + ReceiptOf(plan);
      var ok := ApplyMemory(names, plan, locks.memory, locks.failAt);
      if !ok {
        return {MemoryLeft};
      }
      var pg := ApplyPostgres(names, plan, locks);
      var rows := ApplySqlite(names, plan, locks);
      var stuck := MoveFiles(plan, locks);
      left := pg + rows + stuck;
    }

    /** One run of the script: the plan, the changes, and the exit code. */
    method Clean(names: Names, locks: Locks) returns (left: set<Left>, code: nat)
      modifies this
      ensures Applies(names, old(View()), PlanOf(names, old(View()), locks.unreadable), locks, View())
      ensures left == Lefts(PlanOf(names, old(View()), locks.unreadable), locks)
      ensures code == if left == {} then 0 else 1
      ensures LeftIsThere(names, locks, View(), left)
      ensures (forall store :: Free(locks, store)) ==> code == 0
    {
      hide Applies, Lefts, LeftIsThere, Free;
      ghost var w := View();
      var plan := BuildPlan(names, locks.unreadable);
      left := Apply(names, plan, locks);
      code := if left != {} then 1 else 0;
      LeftsExactly(names, w, locks, View());
      if forall store :: Free(locks, store) {
        FreeLeavesNothing(names, w, locks, View());
      }
    }
  }

  lemma PlannedExists(plan: Plan, t: Target)
    requires PlannedFor(plan, t)
    ensures t in plan.sqlite
  {
  }

  lemma DistinctTargets(i: nat)
    requires i < |TARGETS|
    ensures TARGETS[i] !in TARGETS[..i]
  {
    assert TARGETS[0] == Snapshots && TARGETS[1] == Gates && TARGETS[2] == Ledgers && TARGETS[3] == CronJobs
           && TARGETS[4] == Artifacts && TARGETS[5] == SwarmTasks && TARGETS[6] == SwarmMetrics;
  }

  lemma EveryTarget()
    ensures forall t: Target :: t in TARGETS
  {
    forall t: Target ensures t in TARGETS {
      assert TARGETS[0] == Snapshots && TARGETS[1] == Gates && TARGETS[2] == Ledgers && TARGETS[3] == CronJobs
             && TARGETS[4] == Artifacts && TARGETS[5] == SwarmTasks && TARGETS[6] == SwarmMetrics;
      assert t.Snapshots? || t.Gates? || t.Ledgers? || t.CronJobs? || t.Artifacts? || t.SwarmTasks? || t.SwarmMetrics?;
    }
  }

  lemma OneFact(m: Memory, facts: set<Id>, id: Id)
    ensures Invalidated(Invalidated(m, facts), {id}) == Invalidated(m, facts + {id})
  {
  }

  /** The memory step stopped there: some of what it was to do is done. */
  lemma Partly(names: Names, plan: Plan, m: Memory, i: nat, notes: set<Id>, facts: set<Id>, rows: map<Id, MirrorRow>)
    requires i <= |names.chats| && notes <= plan.notes && facts <= plan.facts
    requires forall id | id in rows :: id in plan.restore && rows[id] == plan.restore[id]
    ensures MemoryPart(names, plan, m, Restored(Invalidated(Forgot(m, names.chats[..i], notes), facts), rows))
    ensures facts == {} ==> Invalidated(Forgot(m, names.chats[..i], notes), facts) == Forgot(m, names.chats[..i], notes)
    ensures rows == map[] ==>
              Restored(Invalidated(Forgot(m, names.chats[..i], notes), facts), rows)
              == Invalidated(Forgot(m, names.chats[..i], notes), facts)
  {
    WorkedPart(names, plan, m, i, notes, facts, rows);
    NothingWorked(Forgot(m, names.chats[..i], notes));
    NothingWorked(Invalidated(Forgot(m, names.chats[..i], notes), facts));
    hide Forgot, Invalidated, Restored, MemoryPart;
  }

  /* ---- what every run keeps ---- */

  /** One run of the script, no other program writing between its plan and its
      changes. */
  ghost predicate Cleans(names: Names, w: World, locks: Locks, u: World) {
    Applies(names, w, PlanOf(names, w, locks.unreadable), locks, u)
  }

  ghost predicate Runs(names: Names, ws: seq<World>, ls: seq<Locks>) {
    |ws| == |ls| + 1 && forall i | 0 <= i < |ls| :: Cleans(names, ws[i], ls[i], ws[i + 1])
  }

  /** The mirror only loses rows of the test window, each in a receipt. */
  ghost predicate MirrorAccounted(names: Names, w: World, u: World) {
    && (forall id | id in u.mirror :: id in w.mirror && u.mirror[id] == w.mirror[id])
    && (forall id | id in w.mirror && id !in u.mirror ::
          names.from <= w.mirror[id].created < names.until && MirrorReceipt(id, w.mirror[id]) in u.receipts)
  }

  ghost predicate ChatsAccounted(names: Names, w: World, u: World) {
    && u.chatStore.Keys == w.chatStore.Keys
    && (forall t | t in w.chatStore :: u.chatStore[t] <= w.chatStore[t])
    && (forall t, r | t in w.chatStore && r in w.chatStore[t] && r !in u.chatStore[t] ::
          r.thread in names.chats && PgReceipt(t, r) in u.receipts)
  }

  ghost predicate SqliteAccounted(names: Names, w: World, u: World) {
    && u.sqlite.Keys == w.sqlite.Keys
    && (forall t | t in w.sqlite :: u.sqlite[t] <= w.sqlite[t])
    && (forall t, r | t in w.sqlite && r in w.sqlite[t] && r !in u.sqlite[t] ::
          Hits(names, t, r) && SqliteReceipt(t, r) in u.receipts)
  }

  /** Memories stay; one of a test chat, or a note, may be forgotten; one from
      the mirror may have come, archived. */
  ghost predicate MemoryAccounted(names: Names, w: World, u: World) {
    && w.memory.ledger <= u.memory.ledger
    && (forall id | id in w.memory.episodes ::
          id in u.memory.episodes && Same(names, id, w.memory.episodes[id], u.memory.episodes[id]))
    && (forall id | id in u.memory.episodes && id !in w.memory.episodes ::
          id in w.mirror && Same(names, id, Episode(w.mirror[id].chat, w.mirror[id].key, Archived), u.memory.episodes[id]))
  }

  predicate Same(names: Names, id: Id, was: Episode, now: Episode) {
    now == was || ((was.chat in names.chats || id in names.notes) && now == was.(tier := Forgotten))
  }

  ghost predicate FilesAccounted(names: Names, w: World, u: World) {
    u.files <= w.files && u.files + u.moved == w.files + w.moved && w.files - u.files <= names.strays
  }

  /** What the stores lost from one state to a later one was named by the
      script and is in a receipt; nothing else changed. */
  ghost predicate Accounted(names: Names, w: World, u: World) {
    && w.receipts <= u.receipts
    && MirrorAccounted(names, w, u) && ChatsAccounted(names, w, u) && SqliteAccounted(names, w, u)
    && MemoryAccounted(names, w, u) && FilesAccounted(names, w, u)
  }

  lemma DonePart(names: Names, plan: Plan, m: Memory)
    ensures MemoryPart(names, plan, m, MemoryDone(names, plan, m))
  {
    assert names.chats[..|names.chats|] == names.chats;
    WorkedPart(names, plan, m, |names.chats|, plan.notes, plan.facts, plan.restore);
    hide MemoryPart, Worked;
  }

  lemma MemoryKept(names: Names, w: World, locks: Locks, u: World)
    requires Cleans(names, w, locks, u)
    ensures MemoryPart(names, PlanOf(names, w, locks.unreadable), w.memory, u.memory)
    ensures w.receipts + ReceiptOf(PlanOf(names, w, locks.unreadable)) == u.receipts
  {
    hide MemoryPart, ReceiptOf, PlanOf, MemoryDone;
    DonePart(names, PlanOf(names, w, locks.unreadable), w.memory);
  }

  lemma MemoryStep(names: Names, w: World, locks: Locks, u: World)
    requires Cleans(names, w, locks, u)
    ensures MemoryAccounted(names, w, u)
  {
    MemoryKept(names, w, locks, u);
    hide Cleans;
  }

  /** The stores of a run are as before or as the plan said. */
  lemma StoresStep(names: Names, w: World, locks: Locks, u: World)
    requires Cleans(names, w, locks, u)
    ensures var plan := PlanOf(names, w, locks.unreadable);
            && u.mirror == (if locks.memory || locks.mirror then w.mirror else w.mirror - plan.junk.Keys)
            && u.chatStore == (if locks.memory then w.chatStore else ChatStoreAfter(names, w.chatStore, plan, locks))
            && u.sqlite == (if locks.memory then w.sqlite else SqliteAfter(names, w.sqlite, plan, locks))
            && u.files == (if locks.memory then w.files else w.files - (plan.files - locks.files))
            && u.moved == (if locks.memory then w.moved else w.moved + (plan.files - locks.files))
  {
    hide PlanOf, MemoryDone, MemoryPart, ReceiptOf, ChatStoreAfter, SqliteAfter;
  }

  lemma MirrorStep(names: Names, w: World, locks: Locks, u: World)
    requires Cleans(names, w, locks, u)
    ensures MirrorAccounted(names, w, u)
  {
    StoresStep(names, w, locks, u);
    MemoryKept(names, w, locks, u);
    hide Cleans, MemoryPart, ChatStoreAfter, SqliteAfter;
  }

  lemma ChatsStep(names: Names, w: World, locks: Locks, u: World)
    requires Cleans(names, w, locks, u)
    ensures ChatsAccounted(names, w, u)
  {
    StoresStep(names, w, locks, u);
    MemoryKept(names, w, locks, u);
    hide Cleans, MemoryPart, SqliteAfter;
  }

  lemma SqliteStep(names: Names, w: World, locks: Locks, u: World)
    requires Cleans(names, w, locks, u)
    ensures SqliteAccounted(names, w, u)
  {
    StoresStep(names, w, locks, u);
    MemoryKept(names, w, locks, u);
    hide Cleans, MemoryPart, ChatStoreAfter, Hits;
  }

  lemma StepAccounted(names: Names, w: World, locks: Locks, u: World)
    requires Cleans(names, w, locks, u)
    ensures Accounted(names, w, u)
  {
    hide Cleans, MirrorAccounted, ChatsAccounted, SqliteAccounted, MemoryAccounted, MemoryPart, ReceiptOf, ChatStoreAfter, SqliteAfter;
    MemoryKept(names, w, locks, u);
    StoresStep(names, w, locks, u);
    MemoryStep(names, w, locks, u);
    MirrorStep(names, w, locks, u);
    ChatsStep(names, w, locks, u);
    SqliteStep(names, w, locks, u);
  }

  lemma MemoryTransitive(names: Names, w: World, v: World, u: World)
    requires MemoryAccounted(names, w, v) && MemoryAccounted(names, v, u) && MirrorAccounted(names, w, v)
    ensures MemoryAccounted(names, w, u)
  {
  }

  lemma AccountedTransitive(names: Names, w: World, v: World, u: World)
    requires Accounted(names, w, v) && Accounted(names, v, u)
    ensures Accounted(names, w, u)
  {
    MemoryTransitive(names, w, v, u);
    hide MemoryAccounted, Hits;
  }

  lemma AccountedSelf(names: Names, w: World)
    ensures Accounted(names, w, w)
  {
  }

  /** Over any runs with any stores locked: a row is gone only if the script
      names it and a receipt holds it, no memory is lost, and every file is
      still there or moved. */
  lemma {:induction false} RunsAccounted(names: Names, ws: seq<World>, ls: seq<Locks>)
    requires Runs(names, ws, ls)
    ensures Accounted(names, ws[0], ws[|ls|])
  {
    hide Accounted, Cleans;
    if ls == [] {
      AccountedSelf(names, ws[0]);
      return;
    }
    var n := |ls| - 1;
    RunsAccounted(names, ws[..n + 1], ls[..n]);
    StepAccounted(names, ws[n], ls[n], ws[n + 1]);
    AccountedTransitive(names, ws[0], ws[n], ws[n + 1]);
  }

  /** A store a run could not take is unchanged; when local memory could not
      be done, every other store is. */
  lemma LockedUnchanged(names: Names, w: World, locks: Locks, u: World)
    requires Cleans(names, w, locks, u)
    ensures locks.memory ==>
              u.mirror == w.mirror && u.chatStore == w.chatStore && u.sqlite == w.sqlite && u.files == w.files && u.moved == w.moved
    ensures locks.mirror ==> u.mirror == w.mirror
    ensures locks.chatStore ==> u.chatStore == w.chatStore
    ensures forall t | t in w.sqlite && t in locks.sqlite :: u.sqlite[t] == w.sqlite[t]
    ensures forall name | name in w.files && name in locks.files :: name in u.files
  {
    StoresStep(names, w, locks, u);
    hide Cleans, Hit, OfChats;
  }

  /* ---- convergence ---- */

  datatype Store = MirrorStore | ChatStore | SqliteStore(target: Target) | StrayFile(name: string)

  /** Nothing the script names is left in the store. */
  predicate CleanStore(names: Names, w: World, store: Store) {
    match store
    case MirrorStore => forall id | id in w.mirror :: !Junk(names, w, id)
    case ChatStore => forall t | t in w.chatStore :: OfChats(names, w.chatStore[t]) == {}
    case SqliteStore(t) => t in w.sqlite ==> Hit(names, t, w.sqlite[t]) == {}
    case StrayFile(name) => name !in w.files * names.strays
  }

  /** The run could read the store and write it. */
  predicate Free(locks: Locks, store: Store) {
    && !locks.memory
    && match store
       case MirrorStore => !locks.mirror
       case ChatStore => !locks.chatStore
       case SqliteStore(t) => t !in locks.unreadable && t !in locks.sqlite
       case StrayFile(name) => name !in locks.files
  }

  lemma FreeIsCleaned(names: Names, w: World, locks: Locks, u: World, store: Store)
    requires Cleans(names, w, locks, u) && Free(locks, store)
    ensures CleanStore(names, u, store)
  {
    StoresStep(names, w, locks, u);
    MemoryStep(names, w, locks, u);
    hide Cleans, Hits;
    var plan := PlanOf(names, w, locks.unreadable);
    match store
    case MirrorStore =>
    case ChatStore =>
      forall t | t in u.chatStore ensures OfChats(names, u.chatStore[t]) == {} {
        assert plan.chatStore[t] == OfChats(names, w.chatStore[t]);
        assert !ChatsPlanned(plan) ==> plan.chatStore[t] == {};
      }
    case SqliteStore(t) =>
    case StrayFile(_) =>
  }

  lemma StaysClean(names: Names, w: World, locks: Locks, u: World, store: Store)
    requires Cleans(names, w, locks, u) && CleanStore(names, w, store)
    ensures CleanStore(names, u, store)
  {
    StepAccounted(names, w, locks, u);
    hide Cleans, Hits;
  }

  /** Once a store was free in one run, it is clean after every later one. */
  lemma {:induction false} StoreConverges(names: Names, ws: seq<World>, ls: seq<Locks>, i: nat, store: Store)
    requires Runs(names, ws, ls) && i < |ls| && Free(ls[i], store)
    ensures CleanStore(names, ws[|ls|], store)
    decreases |ls|
  {
    hide Cleans, Free, CleanStore;
    var n := |ls| - 1;
    if i == n {
      FreeIsCleaned(names, ws[n], ls[n], ws[n + 1], store);
    } else {
      StoreConverges(names, ws[..n + 1], ls[..n], i, store);
      StaysClean(names, ws[n], ls[n], ws[n + 1], store);
    }
  }

  /** Real memories only the mirror held: local, or refused by the ledger. */
  predicate Returned(names: Names, w: World, id: Id, row: MirrorRow) {
    id in w.memory.episodes || row.key in w.memory.ledger
  }

  lemma MemoryReturns(names: Names, w: World, locks: Locks, u: World, id: Id)
    requires Cleans(names, w, locks, u) && !locks.memory && MirrorOnly(names, w, id)
    ensures Returned(names, u, id, w.mirror[id])
  {
  }

  lemma StaysReturned(names: Names, w: World, locks: Locks, u: World, id: Id, row: MirrorRow)
    requires Cleans(names, w, locks, u) && Returned(names, w, id, row)
    ensures Returned(names, u, id, row)
  {
    MemoryStep(names, w, locks, u);
    hide Cleans;
  }

  /** After the first run whose memory step is done, and after every later one,
      each mirror row of another day is in local memory unless the ledger
      refuses it; and the mirror still holds it. */
  lemma {:induction false} RealMemoriesReturn(names: Names, ws: seq<World>, ls: seq<Locks>, i: nat, id: Id)
    requires Runs(names, ws, ls) && i < |ls| && !ls[i].memory
    requires id in ws[i].mirror && !(names.from <= ws[i].mirror[id].created < names.until)
    ensures Returned(names, ws[|ls|], id, ws[i].mirror[id])
    ensures id in ws[|ls|].mirror && ws[|ls|].mirror[id] == ws[i].mirror[id]
    decreases |ls|
  {
    hide Cleans, Returned, MirrorOnly;
    var n := |ls| - 1;
    var row := ws[i].mirror[id];
    MirrorKeeps(names, ws[n], ls[n], ws[n + 1], id);
    if i < n {
      RealMemoriesReturn(names, ws[..n + 1], ls[..n], i, id);
      StaysReturned(names, ws[n], ls[n], ws[n + 1], id, row);
    } else if MirrorOnly(names, ws[n], id) {
      MemoryReturns(names, ws[n], ls[n], ws[n + 1], id);
    } else {
      LocalReturned(names, ws[n], id);
      StaysReturned(names, ws[n], ls[n], ws[n + 1], id, row);
    }
  }

  lemma LocalReturned(names: Names, w: World, id: Id)
    requires id in w.mirror && !MirrorOnly(names, w, id) && !(names.from <= w.mirror[id].created < names.until)
    ensures Returned(names, w, id, w.mirror[id])
  {
  }

  lemma MirrorKeeps(names: Names, w: World, locks: Locks, u: World, id: Id)
    requires Cleans(names, w, locks, u)
    ensures id in w.mirror && !(names.from <= w.mirror[id].created < names.until) ==> id in u.mirror && u.mirror[id] == w.mirror[id]
  {
    MirrorStep(names, w, locks, u);
    hide Cleans;
  }

  /** The ledger refuses every row of another day that only the mirror holds. */
  ghost predicate MirrorIsRefused(names: Names, w: World) {
    forall id | MirrorOnly(names, w, id) :: w.mirror[id].key in w.memory.ledger
  }

  /** No named memory or fact is still to be forgotten, and none to come back. */
  ghost predicate MemorySettled(names: Names, w: World) {
    && (forall id :: !Targeted(names, w.memory, id))
    && (forall id | id in names.facts && id in w.memory.facts :: !w.memory.facts[id])
    && MirrorIsRefused(names, w)
  }

  /** Every step is done, in the stores and in local memory. */
  ghost predicate AllDone(names: Names, w: World) {
    (forall store :: CleanStore(names, w, store)) && MemorySettled(names, w)
  }

  predicate NothingToTake(plan: Plan) {
    && plan.junk == map[] && plan.files == {}
    && (forall t | t in plan.sqlite :: plan.sqlite[t] == {})
    && (forall t | t in plan.chatStore :: plan.chatStore[t] == {})
  }

  ghost predicate EmptyPlan(names: Names, w: World, plan: Plan) {
    NothingToTake(plan) && MemoryPlanEmpty(names, w, plan)
  }

  ghost predicate MemoryPlanEmpty(names: Names, w: World, plan: Plan) {
    && plan.facts == {} && plan.notes == {}
    && (forall id | id in plan.restore :: plan.restore[id].key in w.memory.ledger)
    && (forall id :: !Targeted(names, w.memory, id))
  }

  lemma DonePlanIsEmpty(names: Names, w: World, unreadable: set<Target>)
    requires AllDone(names, w)
    ensures EmptyPlan(names, w, PlanOf(names, w, unreadable))
  {
    hide Hits, CleanStore, NothingToTake;
    CleanPlan(names, w, unreadable);
    var plan := PlanOf(names, w, unreadable);
    forall id ensures id !in plan.notes {
      assert !Targeted(names, w.memory, id);
    }
  }

  lemma CleanPlan(names: Names, w: World, unreadable: set<Target>)
    requires forall store :: CleanStore(names, w, store)
    ensures NothingToTake(PlanOf(names, w, unreadable))
  {
    hide Hits;
    var plan := PlanOf(names, w, unreadable);
    assert CleanStore(names, w, MirrorStore) && CleanStore(names, w, ChatStore);
    forall t | t in plan.sqlite ensures plan.sqlite[t] == {} {
      assert CleanStore(names, w, SqliteStore(t));
    }
    forall name ensures name !in plan.files {
      assert CleanStore(names, w, StrayFile(name));
    }
  }

  lemma EmptyMemoryPart(names: Names, w: World, plan: Plan, n: Memory)
    requires MemoryPlanEmpty(names, w, plan) && MemoryPart(names, plan, w.memory, n)
    ensures n == w.memory
  {
    var m := w.memory;
    forall id | id in m.episodes ensures id in n.episodes && n.episodes[id] == m.episodes[id] {
      assert !Targeted(names, m, id);
    }
    assert n.episodes == m.episodes;
    forall key | key in n.ledger ensures key in m.ledger {
      if key !in m.ledger {
        var id :| Targets(names, plan, m, id) && m.episodes[id].key == key;
        assert Targeted(names, m, id);
      }
    }
    assert n.ledger == m.ledger && n.facts == m.facts;
  }

  /** Running it again is safe: with every step done, a new run changes
      nothing, whatever is locked. */
  lemma DoneStaysDone(names: Names, w: World, locks: Locks, u: World)
    requires AllDone(names, w) && Cleans(names, w, locks, u)
    ensures u == w
  {
    hide Cleans, AllDone, MemoryPart, PlanOf, Hit, OfChats, EmptyPlan, SqliteAfter, ChatStoreAfter, ReceiptOf;
    var plan := PlanOf(names, w, locks.unreadable);
    DonePlanIsEmpty(names, w, locks.unreadable);
    MemoryKept(names, w, locks, u);
    EmptyTakes(names, w, plan);
    EmptyMemoryPart(names, w, plan, u.memory);
    EmptyStores(names, w, plan, locks);
    StoresStep(names, w, locks, u);
  }

  lemma EmptyTakes(names: Names, w: World, plan: Plan)
    requires EmptyPlan(names, w, plan)
    ensures NothingToTake(plan) && MemoryPlanEmpty(names, w, plan)
  {
  }

  lemma EmptyStores(names: Names, w: World, plan: Plan, locks: Locks)
    requires NothingToTake(plan)
    ensures ReceiptOf(plan) == {} && w.mirror - plan.junk.Keys == w.mirror && plan.files == {}
    ensures SqliteAfter(names, w.sqlite, plan, locks) == w.sqlite && ChatStoreAfter(names, w.chatStore, plan, locks) == w.chatStore
  {
    hide Hit, OfChats, Targeted;
  }

  predicate FreeOnce(ls: seq<Locks>, store: Store) {
    exists i :: 0 <= i < |ls| && Free(ls[i], store)
  }

  predicate Named(names: Names, chat: string, id: Id) {
    chat in names.chats || id in names.notes
  }

  /** The memory step would put a memory back that the script names: only the
      mirror holds it, and neither the ledger nor what this run forgets
      refuses its key. */
  ghost predicate ComesBack(names: Names, w: World, id: Id) {
    && MirrorOnly(names, w, id) && Named(names, w.mirror[id].chat, id) && w.mirror[id].key !in w.memory.ledger
    && forall x | Targeted(names, w.memory, x) :: w.memory.episodes[x].key != w.mirror[id].key
  }

  lemma NothingRemoved(names: Names, w: World, locks: Locks, u: World)
    requires Cleans(names, w, locks, u) && forall store :: CleanStore(names, w, store)
    ensures u == w.(memory := u.memory)
  {
    hide Cleans, CleanStore, PlanOf, ReceiptOf, SqliteAfter, ChatStoreAfter, MemoryPart;
    var plan := PlanOf(names, w, locks.unreadable);
    CleanPlan(names, w, locks.unreadable);
    MemoryKept(names, w, locks, u);
    EmptyStores(names, w, plan, locks);
    StoresStep(names, w, locks, u);
  }

  /** A run with nothing locked does every step if and only if no memory the
      script names comes back from the mirror in it. */
  lemma FreeRunDoesAll(names: Names, w: World, locks: Locks, u: World)
    requires Cleans(names, w, locks, u) && forall store :: Free(locks, store)
    ensures AllDone(names, u) <==> forall id :: !ComesBack(names, w, id)
  {
    hide Cleans, Free, CleanStore, Targeted, MirrorOnly, ComesBack;
    forall store ensures CleanStore(names, u, store) {
      FreeIsCleaned(names, w, locks, u, store);
    }
    assert !locks.memory by { FreeMemory(locks); }
    FactsDone(names, w, locks, u);
    MirrorRefused(names, w, locks, u);
    forall id ensures Targeted(names, u.memory, id) <==> ComesBack(names, w, id) {
      StillTargeted(names, w, locks, u, id);
    }
  }

  lemma FreeMemory(locks: Locks)
    requires forall store :: Free(locks, store)
    ensures !locks.memory
  {
    assert Free(locks, MirrorStore);
  }

  lemma FactsDone(names: Names, w: World, locks: Locks, u: World)
    requires Cleans(names, w, locks, u) && !locks.memory
    ensures forall id | id in names.facts && id in u.memory.facts :: !u.memory.facts[id]
  {
    MemoryIs(names, w, locks, u);
    hide Cleans, Hit, OfChats;
  }

  lemma MirrorRefused(names: Names, w: World, locks: Locks, u: World)
    requires Cleans(names, w, locks, u) && !locks.memory
    ensures forall id | MirrorOnly(names, u, id) :: u.mirror[id].key in u.memory.ledger
  {
    forall id | MirrorOnly(names, u, id) ensures u.mirror[id].key in u.memory.ledger {
      StepAccounted(names, w, locks, u);
      MemoryReturns(names, w, locks, u, id);
    }
  }

  /** What the memory step adds to the ledger: the keys of what it forgets. */
  lemma LedgerAfter(names: Names, w: World, locks: Locks, u: World, key: nat)
    requires Cleans(names, w, locks, u) && !locks.memory
    ensures key in u.memory.ledger <==>
              key in w.memory.ledger || exists x :: Targeted(names, w.memory, x) && w.memory.episodes[x].key == key
  {
    MemoryIs(names, w, locks, u);
    hide Cleans, Hit, OfChats;
    var plan := PlanOf(names, w, locks.unreadable);
    if x :| Targeted(names, w.memory, x) && w.memory.episodes[x].key == key {
      assert w.memory.episodes[x].chat in names.chats || x in plan.notes;
    }
    if key in u.memory.ledger && key !in w.memory.ledger {
      var x :| x in w.memory.episodes && w.memory.episodes[x].tier != Forgotten
               && (w.memory.episodes[x].chat in names.chats || x in plan.notes) && w.memory.episodes[x].key == key;
      assert Targeted(names, w.memory, x);
    }
  }

  lemma StillTargeted(names: Names, w: World, locks: Locks, u: World, id: Id)
    requires Cleans(names, w, locks, u) && !locks.memory
    ensures Targeted(names, u.memory, id) <==> ComesBack(names, w, id)
  {
    RestoredNamed(names, w, locks, u, id);
    if id in w.mirror {
      LedgerAfter(names, w, locks, u, w.mirror[id].key);
    }
    hide Cleans, MirrorOnly, Targeted, Named;
  }

  lemma RestoredNamed(names: Names, w: World, locks: Locks, u: World, id: Id)
    requires Cleans(names, w, locks, u) && !locks.memory
    ensures Targeted(names, u.memory, id) <==>
              MirrorOnly(names, w, id) && w.mirror[id].key !in u.memory.ledger && Named(names, w.mirror[id].chat, id)
    ensures MirrorOnly(names, w, id) ==> id in w.mirror
  {
    MemoryIs(names, w, locks, u);
    hide Cleans, Hit, OfChats;
  }

  lemma MemoryIs(names: Names, w: World, locks: Locks, u: World)
    requires Cleans(names, w, locks, u) && !locks.memory
    ensures u.memory == MemoryDone(names, PlanOf(names, w, locks.unreadable), w.memory)
  {
    hide MemoryDone, PlanOf, ReceiptOf, SqliteAfter, ChatStoreAfter;
  }

  /** There is such a run: it puts a test chat's memory back, and is not done
      although nothing was locked. */
  lemma NamedMemoryComesBack(names: Names) returns (w: World, locks: Locks, u: World)
    requires names.chats != []
    ensures Cleans(names, w, locks, u) && (forall store :: Free(locks, store))
    ensures Lefts(PlanOf(names, w, locks.unreadable), locks) == {}
    ensures !AllDone(names, u) && exists id :: Targeted(names, u.memory, id)
  {
    var row := MirrorRow(names.chats[0], 7, names.until);
    w := World(Memory(map[], map[], {}), map[0 := row], map[], map[], {}, {}, {});
    locks := Locks({}, false, 0, false, false, {}, {});
    var plan := PlanOf(names, w, {});
    u := StoresAfter(names, w.(receipts := w.receipts + ReceiptOf(plan), memory := MemoryDone(names, plan, w.memory)), plan, locks);
    assert ComesBack(names, w, 0);
    StillTargeted(names, w, locks, u, 0);
    FreeRunDoesAll(names, w, locks, u);
  }

  /** The next run forgets it: after two runs in which nothing was locked every
      step is done. */
  lemma TwoFreeRunsDoAll(names: Names, w: World, first: Locks, v: World, second: Locks, u: World)
    requires Cleans(names, w, first, v) && Cleans(names, v, second, u)
    requires (forall store :: Free(first, store)) && forall store :: Free(second, store)
    ensures AllDone(names, u)
  {
    hide Cleans, Free, MirrorOnly, AllDone;
    FreeMemory(first);
    MirrorRefused(names, w, first, v);
    RefusedDoNotComeBack(names, v);
    FreeRunDoesAll(names, v, second, u);
  }

  lemma RefusedDoNotComeBack(names: Names, w: World)
    requires MirrorIsRefused(names, w)
    ensures forall id :: !ComesBack(names, w, id)
  {
    hide MirrorOnly, Named;
  }

  lemma RefusedStays(names: Names, w: World, locks: Locks, u: World)
    requires Cleans(names, w, locks, u) && MirrorIsRefused(names, w)
    ensures MirrorIsRefused(names, u)
  {
    StepAccounted(names, w, locks, u);
    hide Cleans, ChatsAccounted, SqliteAccounted, FilesAccounted;
  }

  /** A memory step done while the mirror is refused settles local memory. */
  lemma SecondStepSettles(names: Names, w: World, locks: Locks, u: World)
    requires Cleans(names, w, locks, u) && !locks.memory && MirrorIsRefused(names, w)
    ensures MemorySettled(names, u)
  {
    hide Cleans, ComesBack, Targeted, MirrorOnly;
    RefusedStays(names, w, locks, u);
    FactsDone(names, w, locks, u);
    RefusedDoNotComeBack(names, w);
    forall id ensures !Targeted(names, u.memory, id) {
      StillTargeted(names, w, locks, u, id);
    }
  }

  /** Settled memory does not change, whatever is locked. */
  lemma SettledStays(names: Names, w: World, locks: Locks, u: World)
    requires Cleans(names, w, locks, u) && MemorySettled(names, w)
    ensures u.memory == w.memory && MemorySettled(names, u)
  {
    var plan := PlanOf(names, w, locks.unreadable);
    MemoryKept(names, w, locks, u);
    SettledPlan(names, w, locks.unreadable);
    EmptyMemoryPart(names, w, plan, u.memory);
    RefusedStays(names, w, locks, u);
    hide Cleans, MemoryPart, PlanOf, MirrorIsRefused;
  }

  lemma SettledPlan(names: Names, w: World, unreadable: set<Target>)
    requires MemorySettled(names, w)
    ensures MemoryPlanEmpty(names, w, PlanOf(names, w, unreadable))
  {
    var plan := PlanOf(names, w, unreadable);
    hide Hit, OfChats;
    forall id ensures id !in plan.notes {
      assert !Targeted(names, w.memory, id);
    }
  }

  lemma {:induction false} RefusedFrom(names: Names, ws: seq<World>, ls: seq<Locks>, i: nat)
    requires Runs(names, ws, ls) && i < |ls| && !ls[i].memory
    ensures MirrorIsRefused(names, ws[|ls|])
    decreases |ls|
  {
    hide Cleans, MirrorIsRefused;
    var n := |ls| - 1;
    if i == n {
      RefusedAfter(names, ws[n], ls[n], ws[n + 1]);
    } else {
      RefusedFrom(names, ws[..n + 1], ls[..n], i);
      RefusedStays(names, ws[n], ls[n], ws[n + 1]);
    }
  }

  lemma RefusedAfter(names: Names, w: World, locks: Locks, u: World)
    requires Cleans(names, w, locks, u) && !locks.memory
    ensures MirrorIsRefused(names, u)
  {
    hide Cleans;
    MirrorRefused(names, w, locks, u);
  }

  lemma {:induction false} MemoryConverges(names: Names, ws: seq<World>, ls: seq<Locks>, i: nat, j: nat)
    requires Runs(names, ws, ls) && i < j < |ls| && !ls[i].memory && !ls[j].memory
    ensures MemorySettled(names, ws[|ls|])
    decreases |ls|
  {
    hide Cleans, MirrorIsRefused, MemorySettled;
    var n := |ls| - 1;
    if j == n {
      RefusedFrom(names, ws[..n + 1], ls[..n], i);
      SecondStepSettles(names, ws[n], ls[n], ws[n + 1]);
    } else {
      MemoryConverges(names, ws[..n + 1], ls[..n], i, j);
      SettledStays(names, ws[n], ls[n], ws[n + 1]);
    }
  }

  lemma AllStoresClean(names: Names, ws: seq<World>, ls: seq<Locks>)
    requires Runs(names, ws, ls) && forall store :: FreeOnce(ls, store)
    ensures forall store :: CleanStore(names, ws[|ls|], store)
  {
    hide Cleans, Free, CleanStore;
    forall store ensures CleanStore(names, ws[|ls|], store) {
      assert FreeOnce(ls, store);
      var i :| 0 <= i < |ls| && Free(ls[i], store);
      StoreConverges(names, ws, ls, i, store);
    }
  }

  /** The cleanup converges: once every store has been free in some run, each
      maybe in another, and the memory step was done in two, every step is
      done, and a new run changes nothing, whatever is locked. */
  lemma Converges(names: Names, ws: seq<World>, ls: seq<Locks>, i: nat, j: nat, locks: Locks, u: World)
    requires Runs(names, ws, ls) && Cleans(names, ws[|ls|], locks, u)
    requires (forall store :: FreeOnce(ls, store)) && i < j < |ls| && !ls[i].memory && !ls[j].memory
    ensures AllDone(names, ws[|ls|]) && u == ws[|ls|]
  {
    hide Cleans, Free, FreeOnce, CleanStore;
    AllStoresClean(names, ws, ls);
    MemoryConverges(names, ws, ls, i, j);
    DoneStaysDone(names, ws[|ls|], locks, u);
  }

  /** One memory step is enough for the other stores: a new run removes nothing
      and moves nothing. */
  lemma StoresConverge(names: Names, ws: seq<World>, ls: seq<Locks>, locks: Locks, u: World)
    requires Runs(names, ws, ls) && Cleans(names, ws[|ls|], locks, u)
    requires forall store :: FreeOnce(ls, store)
    ensures u == ws[|ls|].(memory := u.memory)
  {
    hide Cleans, Free, FreeOnce, CleanStore;
    AllStoresClean(names, ws, ls);
    NothingRemoved(names, ws[|ls|], locks, u);
  }

  /* ---- what a run takes, row by row ---- */

  /** A memory the run puts back. */
  ghost predicate PutsBack(names: Names, w: World, id: Id) {
    && id in w.mirror && id !in w.memory.episodes
    && (w.mirror[id].created < names.from || w.mirror[id].created >= names.until)
    && w.mirror[id].key !in w.memory.ledger
    && forall x | Targeted(names, w.memory, x) :: w.memory.episodes[x].key != w.mirror[id].key
  }

  /** Which rows of a SQLite store a run takes that could read and write it. */
  lemma RowsTaken(names: Names, w: World, locks: Locks, u: World, t: Target, r: Row)
    requires Cleans(names, w, locks, u) && Free(locks, SqliteStore(t)) && t in w.sqlite && r in w.sqlite[t]
    ensures t in u.sqlite
    ensures r !in u.sqlite[t] <==>
              match t
              case Snapshots => r.thread in names.chats
              case Gates => r.thread in names.gates || r.thread in names.chats
              case Ledgers => r.thread in names.ledgers
              case CronJobs => r.status == "done" && r.thread == "live-remind" && r.id == names.job
              case Artifacts => r.thread == "live-x"
              case SwarmTasks => r.day == names.day
              case SwarmMetrics => r.day == names.day
  {
    hide Cleans, Free, ChatsAccounted, MirrorAccounted, MemoryAccounted, FilesAccounted;
    StepAccounted(names, w, locks, u);
    FreeIsCleaned(names, w, locks, u, SqliteStore(t));
    assert r in Hit(names, t, w.sqlite[t]) <==> Hits(names, t, r);
    assert r in u.sqlite[t] ==> r !in Hit(names, t, u.sqlite[t]);
  }

  /** And of the chat store, and which files go. */
  lemma ChatsTaken(names: Names, w: World, locks: Locks, u: World)
    requires Cleans(names, w, locks, u) && Free(locks, ChatStore)
    ensures u.chatStore.Keys == w.chatStore.Keys
    ensures forall t, r | t in w.chatStore :: r in u.chatStore[t] <==> r in w.chatStore[t] && r.thread !in names.chats
  {
    hide Cleans, Free, SqliteAccounted, MirrorAccounted, MemoryAccounted, FilesAccounted;
    StepAccounted(names, w, locks, u);
    FreeIsCleaned(names, w, locks, u, ChatStore);
    forall t, r | t in w.chatStore ensures r in u.chatStore[t] <==> r in w.chatStore[t] && r.thread !in names.chats {
      assert r in u.chatStore[t] ==> r !in OfChats(names, u.chatStore[t]);
    }
  }

  lemma FilesTaken(names: Names, w: World, locks: Locks, u: World)
    requires Cleans(names, w, locks, u) && forall store :: Free(locks, store)
    ensures u.files == w.files - names.strays && u.moved == w.moved + w.files * names.strays
  {
    hide Cleans, SqliteAfter, ChatStoreAfter;
    assert Free(locks, MirrorStore);
    forall name ensures name !in locks.files {
      assert Free(locks, StrayFile(name));
    }
    StoresStep(names, w, locks, u);
  }

  /** Local memory and the mirror. */
  lemma MemoryLeftOver(names: Names, w: World, locks: Locks, u: World, id: Id)
    requires Cleans(names, w, locks, u) && !locks.memory && !locks.mirror
    ensures id in u.mirror <==> id in w.mirror && (id in w.memory.episodes || !(names.from <= w.mirror[id].created < names.until))
    ensures id in u.memory.episodes <==> id in w.memory.episodes || PutsBack(names, w, id)
    ensures id in w.memory.episodes ==>
              u.memory.episodes[id] == w.memory.episodes[id].(tier := if Targeted(names, w.memory, id) then Forgotten else w.memory.episodes[id].tier)
    ensures PutsBack(names, w, id) ==> u.memory.episodes[id] == Episode(w.mirror[id].chat, w.mirror[id].key, Archived)
    ensures id in w.memory.facts ==> id in u.memory.facts && u.memory.facts[id] == (w.memory.facts[id] && id !in names.facts)
  {
    MirrorLeftOver(names, w, locks, u, id);
    if id in w.mirror {
      LedgerAfter(names, w, locks, u, w.mirror[id].key);
    }
    EpisodeLeftOver(names, w, locks, u, id);
  }

  lemma MirrorLeftOver(names: Names, w: World, locks: Locks, u: World, id: Id)
    requires Cleans(names, w, locks, u) && !locks.memory && !locks.mirror
    ensures id in u.mirror <==> id in w.mirror && (id in w.memory.episodes || !(names.from <= w.mirror[id].created < names.until))
  {
    StoresStep(names, w, locks, u);
    hide Cleans, SqliteAfter, ChatStoreAfter, Hit, OfChats, MirrorOnly;
  }

  lemma EpisodeLeftOver(names: Names, w: World, locks: Locks, u: World, id: Id)
    requires Cleans(names, w, locks, u) && !locks.memory
    ensures id in u.memory.episodes <==>
              id in w.memory.episodes || (MirrorOnly(names, w, id) && w.mirror[id].key !in u.memory.ledger)
    ensures id in w.memory.episodes ==>
              u.memory.episodes[id] == w.memory.episodes[id].(tier := if Targeted(names, w.memory, id) then Forgotten else w.memory.episodes[id].tier)
    ensures id in u.memory.episodes && id !in w.memory.episodes ==>
              u.memory.episodes[id] == Episode(w.mirror[id].chat, w.mirror[id].key, Archived)
    ensures id in w.memory.facts ==> id in u.memory.facts && u.memory.facts[id] == (w.memory.facts[id] && id !in names.facts)
  {
    MemoryIs(names, w, locks, u);
    hide Cleans, Hit, OfChats;
  }

  /** What the plan says it will forget is exactly what a memory step forgets. */
  lemma PlanForgets(names: Names, w: World, locks: Locks, u: World, id: Id)
    requires Cleans(names, w, locks, u) && !locks.memory && id in w.memory.episodes
    ensures var plan := PlanOf(names, w, locks.unreadable);
            id in u.memory.episodes
            && (w.memory.episodes[id] != u.memory.episodes[id] <==> id in plan.chatMemories || id in plan.notes)
  {
    EpisodeLeftOver(names, w, locks, u, id);
    hide Cleans, Hit, OfChats, MirrorOnly, Junk;
  }

  /* ---- what is listed as left ---- */

  /** Local memory alone, when it could not be done; otherwise exactly the
      stores that still hold what the plan was to take from them.  (A SQLite
      store that could not be read while planning is not in the plan.) */
  ghost predicate LeftIsThere(names: Names, locks: Locks, u: World, left: set<Left>) {
    if locks.memory then left == {MemoryLeft}
    else
      && MemoryLeft !in left
      && (MirrorLeft in left <==> exists id :: id in u.mirror && Junk(names, u, id))
      && (ChatStoreLeft in left <==> exists t :: t in u.chatStore && OfChats(names, u.chatStore[t]) != {})
      && (forall t :: SqliteLeft(t) in left <==> t in u.sqlite && t !in locks.unreadable && Hit(names, t, u.sqlite[t]) != {})
      && (forall name :: FileLeft(name) in left <==> name in u.files && name in names.strays)
  }

  /** Only rows of other days are put back. */
  lemma NotRestored(names: Names, w: World, locks: Locks, u: World, id: Id)
    requires Cleans(names, w, locks, u) && !locks.memory && id in w.mirror && names.from <= w.mirror[id].created < names.until
    ensures id in u.memory.episodes <==> id in w.memory.episodes
  {
    MemoryIs(names, w, locks, u);
    hide Cleans, Hit, OfChats;
  }

  lemma MirrorLeftExactly(names: Names, w: World, locks: Locks, u: World)
    requires Cleans(names, w, locks, u) && !locks.memory
    ensures MirrorLeft in Lefts(PlanOf(names, w, locks.unreadable), locks) <==> exists id :: id in u.mirror && Junk(names, u, id)
  {
    hide Cleans, SqliteAfter, ChatStoreAfter, Hit, OfChats, MirrorOnly;
    StoresStep(names, w, locks, u);
    var plan := PlanOf(names, w, locks.unreadable);
    forall id | id in u.mirror ensures Junk(names, u, id) <==> id in plan.junk {
      if names.from <= w.mirror[id].created < names.until {
        NotRestored(names, w, locks, u, id);
      }
    }
    if id :| id in plan.junk && locks.mirror {
      assert id in u.mirror;
    }
  }

  lemma ChatsLeftExactly(names: Names, w: World, locks: Locks, u: World)
    requires Cleans(names, w, locks, u) && !locks.memory
    ensures ChatStoreLeft in Lefts(PlanOf(names, w, locks.unreadable), locks) <==>
              exists t :: t in u.chatStore && OfChats(names, u.chatStore[t]) != {}
  {
    StoresStep(names, w, locks, u);
    hide Cleans, SqliteAfter, Hit, Junk, MirrorOnly;
    var plan := PlanOf(names, w, locks.unreadable);
    assert forall t | t in w.chatStore :: plan.chatStore[t] == OfChats(names, w.chatStore[t]);
    if ChatsPlanned(plan) && locks.chatStore {
      var t :| t in plan.chatStore && plan.chatStore[t] != {};
      assert t in u.chatStore && OfChats(names, u.chatStore[t]) != {};
    }
  }

  lemma SqliteLeftExactly(names: Names, w: World, locks: Locks, u: World, t: Target)
    requires Cleans(names, w, locks, u) && !locks.memory
    ensures SqliteLeft(t) in Lefts(PlanOf(names, w, locks.unreadable), locks) <==>
              t in u.sqlite && t !in locks.unreadable && Hit(names, t, u.sqlite[t]) != {}
  {
    hide Cleans, ChatStoreAfter, SqliteAfter, PlanOf, Hit, PlannedFor;
    StoresStep(names, w, locks, u);
    EveryTarget();
    SqlitePlanned(names, w, locks, t);
  }

  lemma SqlitePlanned(names: Names, w: World, locks: Locks, t: Target)
    ensures var plan := PlanOf(names, w, locks.unreadable);
            && (PlannedFor(plan, t) <==> t in w.sqlite && t !in locks.unreadable && Hit(names, t, w.sqlite[t]) != {})
            && SqliteAfter(names, w.sqlite, plan, locks).Keys == w.sqlite.Keys
            && (t in w.sqlite ==>
                  Hit(names, t, SqliteAfter(names, w.sqlite, plan, locks)[t])
                  == if PlannedFor(plan, t) && t !in locks.sqlite then {} else Hit(names, t, w.sqlite[t]))
  {
    hide Junk, MirrorOnly, OfChats, Hits;
  }

  lemma FileLeftExactly(names: Names, w: World, locks: Locks, u: World, name: string)
    requires Cleans(names, w, locks, u) && !locks.memory
    ensures FileLeft(name) in Lefts(PlanOf(names, w, locks.unreadable), locks) <==> name in u.files && name in names.strays
  {
    StoresStep(names, w, locks, u);
    hide Cleans, ChatStoreAfter, SqliteAfter, OfChats, Junk, MirrorOnly, Hit;
  }

  lemma MemoryLeftExactly(plan: Plan, locks: Locks)
    ensures MemoryLeft in Lefts(plan, locks) <==> locks.memory
    ensures locks.memory ==> Lefts(plan, locks) == {MemoryLeft}
  {
  }

  /** For every run without another writer, what is listed as left is what the
      plan was to take and the stores still hold. */
  lemma LeftsExactly(names: Names, w: World, locks: Locks, u: World)
    requires Cleans(names, w, locks, u)
    ensures LeftIsThere(names, locks, u, Lefts(PlanOf(names, w, locks.unreadable), locks))
  {
    hide Cleans, Lefts, PlanOf, Hit, OfChats, Junk;
    MemoryLeftExactly(PlanOf(names, w, locks.unreadable), locks);
    if !locks.memory {
      MirrorLeftExactly(names, w, locks, u);
      ChatsLeftExactly(names, w, locks, u);
      forall t ensures SqliteLeft(t) in Lefts(PlanOf(names, w, locks.unreadable), locks) <==>
                         t in u.sqlite && t !in locks.unreadable && Hit(names, t, u.sqlite[t]) != {} {
        SqliteLeftExactly(names, w, locks, u, t);
      }
      forall name ensures FileLeft(name) in Lefts(PlanOf(names, w, locks.unreadable), locks) <==> name in u.files && name in names.strays {
        FileLeftExactly(names, w, locks, u, name);
      }
    }
  }

  /** With nothing locked there is nothing to list, and the exit code is 0. */
  lemma FreeLeavesNothing(names: Names, w: World, locks: Locks, u: World)
    requires Cleans(names, w, locks, u) && forall store :: Free(locks, store)
    ensures Lefts(PlanOf(names, w, locks.unreadable), locks) == {}
  {
    assert Free(locks, MirrorStore) && Free(locks, ChatStore);
    forall t ensures t !in locks.sqlite {
      assert Free(locks, SqliteStore(t));
    }
    forall name ensures name !in locks.files {
      assert Free(locks, StrayFile(name));
    }
    hide Cleans, PlanOf;
  }

  /* ---- what the exit code says ---- */

  ghost predicate NothingNamed(names: Names, w: World) {
    forall store :: CleanStore(names, w, store)
  }

  /** Every SQLite store the plan had to skip had nothing to remove. */
  ghost predicate SkippedNothing(names: Names, w: World, locks: Locks) {
    forall t | t in locks.unreadable && t in w.sqlite :: Hit(names, t, w.sqlite[t]) == {}
  }

  /** An exit code of 0 means that every step is done just when the plan skipped
      no store with rows to remove, and no memory the script names comes back
      from the mirror: neither is among what is listed as left. */
  lemma CleanExit(names: Names, w: World, locks: Locks, u: World)
    requires Cleans(names, w, locks, u) && Lefts(PlanOf(names, w, locks.unreadable), locks) == {}
    ensures AllDone(names, u) <==> SkippedNothing(names, w, locks) && forall id :: !ComesBack(names, w, id)
  {
    hide Cleans, CleanStore, SkippedNothing, Targeted, MirrorOnly, ComesBack, PlanOf;
    assert !locks.memory by { assert MemoryLeft in {MemoryLeft}; }
    StoresExit(names, w, locks, u);
    FactsDone(names, w, locks, u);
    MirrorRefused(names, w, locks, u);
    forall id ensures Targeted(names, u.memory, id) <==> ComesBack(names, w, id) {
      StillTargeted(names, w, locks, u, id);
    }
  }

  /** The stores' part of it. */
  lemma StoresExit(names: Names, w: World, locks: Locks, u: World)
    requires Cleans(names, w, locks, u) && Lefts(PlanOf(names, w, locks.unreadable), locks) == {}
    ensures NothingNamed(names, u) <==> SkippedNothing(names, w, locks)
  {
    hide Cleans, CleanStore, Hit;
    forall t | t in locks.unreadable && t in w.sqlite
      ensures CleanStore(names, u, SqliteStore(t)) <==> Hit(names, t, w.sqlite[t]) == {} {
      SkippedUnchanged(names, w, locks, u, t);
    }
    if forall t | t in locks.unreadable && t in w.sqlite :: Hit(names, t, w.sqlite[t]) == {} {
      forall store ensures CleanStore(names, u, store) {
        if Free(locks, store) {
          FreeIsCleaned(names, w, locks, u, store);
        } else {
          NoneToTake(names, w, locks, store);
          StaysClean(names, w, locks, u, store);
        }
      }
    }
  }

  lemma SkippedUnchanged(names: Names, w: World, locks: Locks, u: World, t: Target)
    requires Cleans(names, w, locks, u) && t in locks.unreadable && t in w.sqlite
    ensures CleanStore(names, u, SqliteStore(t)) <==> Hit(names, t, w.sqlite[t]) == {}
  {
    StoresStep(names, w, locks, u);
    hide Cleans, Hit;
  }

  /** A store that was not free, but is not among what was left, had nothing
      the plan could have taken. */
  lemma NoneToTake(names: Names, w: World, locks: Locks, store: Store)
    requires Lefts(PlanOf(names, w, locks.unreadable), locks) == {} && !Free(locks, store)
    requires forall t | t in locks.unreadable && t in w.sqlite :: Hit(names, t, w.sqlite[t]) == {}
    ensures CleanStore(names, w, store)
  {
    hide Hits;
    var plan := PlanOf(names, w, locks.unreadable);
    assert !locks.memory by { assert MemoryLeft in {MemoryLeft}; }
    match store
    case MirrorStore =>
      assert plan.junk == map[] by { assert MirrorLeft !in PgLefts(plan, locks); }
      forall id | id in w.mirror ensures !Junk(names, w, id) {
        assert id !in plan.junk;
      }
    case ChatStore =>
      assert !ChatsPlanned(plan) by { assert ChatStoreLeft !in PgLefts(plan, locks); }
      forall t | t in w.chatStore ensures OfChats(names, w.chatStore[t]) == {} {
        assert plan.chatStore[t] == OfChats(names, w.chatStore[t]);
      }
    case SqliteStore(t) =>
      EveryTarget();
      assert SqliteLeft(t) !in SqliteLefts(plan, locks);
    case StrayFile(name) =>
      assert FileLeft(name) !in FileLefts(plan, locks);
  }

  /** So a run may end with exit code 0 although rows it names are left: a
      store that could not be read when the plan was built is passed over in
      silence. */
  lemma SilentSkip(names: Names) returns (w: World, locks: Locks, u: World)
    ensures Cleans(names, w, locks, u) && Lefts(PlanOf(names, w, locks.unreadable), locks) == {}
    ensures SwarmTasks in u.sqlite && Hit(names, SwarmTasks, u.sqlite[SwarmTasks]) != {}
  {
    var row := Row("task", "", "", names.day);
    w := World(Memory(map[], map[], {}), map[], map[], map[SwarmTasks := {row}], {}, {}, {});
    locks := Locks({SwarmTasks}, false, 0, false, false, {}, {});
    var plan := PlanOf(names, w, locks.unreadable);
    u := StoresAfter(names, w.(receipts := w.receipts + ReceiptOf(plan), memory := MemoryDone(names, plan, w.memory)), plan, locks);
    assert SwarmTasks !in plan.sqlite;
    assert row in Hit(names, SwarmTasks, u.sqlite[SwarmTasks]);
  }

  /* ---- another program writing between the plan and the changes ---- */

  /** The SQLite deletes name their rows by condition, not by identity: every
      row they take is in the receipt just when no row that matches came after
      the plan was read.  (The mirror's deletes are by identity.) */
  lemma DeletedAreReceipted(names: Names, planned: World, w: World, locks: Locks, u: World, t: Target)
    requires var plan := PlanOf(names, planned, locks.unreadable);
             Applies(names, w, plan, locks, u) && PlannedFor(plan, t)
    requires !locks.memory && t !in locks.sqlite && t in w.sqlite
    ensures (forall r | r in w.sqlite[t] - u.sqlite[t] :: SqliteReceipt(t, r) in ReceiptOf(PlanOf(names, planned, locks.unreadable)))
            <==> Hit(names, t, w.sqlite[t]) <= Hit(names, t, planned.sqlite[t])
  {
    hide Hits, MemoryDone, MemoryPart, ChatStoreAfter;
    var plan := PlanOf(names, planned, locks.unreadable);
    assert u.sqlite == SqliteAfter(names, w.sqlite, plan, locks);
    assert w.sqlite[t] - u.sqlite[t] == Hit(names, t, w.sqlite[t]);
    forall r ensures SqliteReceipt(t, r) in ReceiptOf(plan) <==> r in plan.sqlite[t] {
    }
  }

  /** So does the chat store, every table of it once one had a row planned. */
  lemma DeletedChatsAreReceipted(names: Names, planned: World, w: World, locks: Locks, u: World, t: PgTable)
    requires var plan := PlanOf(names, planned, locks.unreadable);
             Applies(names, w, plan, locks, u) && ChatsPlanned(plan)
    requires !locks.memory && !locks.chatStore && t in w.chatStore && t in planned.chatStore
    ensures (forall r | r in w.chatStore[t] - u.chatStore[t] :: PgReceipt(t, r) in ReceiptOf(PlanOf(names, planned, locks.unreadable)))
            <==> OfChats(names, w.chatStore[t]) <= OfChats(names, planned.chatStore[t])
  {
    hide Hits, MemoryDone, MemoryPart, SqliteAfter;
    var plan := PlanOf(names, planned, locks.unreadable);
    assert u.chatStore == ChatStoreAfter(names, w.chatStore, plan, locks);
    assert w.chatStore[t] - u.chatStore[t] == OfChats(names, w.chatStore[t]);
    forall r ensures PgReceipt(t, r) in ReceiptOf(plan) <==> r in plan.chatStore[t] {
    }
  }
}
