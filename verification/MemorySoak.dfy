/** The turn numbers of the memory soak (scripts/memory_soak.py).  The child
    numbers a chat's new turns from the messages stored (`_child`); the parent
    numbers them again from the chat store (`_settled_turns`).  Both must agree
    after any run of cycles killed at any step. */
module MemorySoak {
  type ChatId = nat

  datatype Message = User(text: string) | Assistant(text: string)
  datatype Turn = Turn(question: string, answer: string, live: bool)
  datatype Entry = Entry(chat: ChatId, turns: seq<Turn>)

  /** A turn as a memory: its chat, its number in the chat, its question. */
  datatype Episode = Episode(chat: ChatId, number: nat, question: string)

  type Chats = map<ChatId, seq<Message>>

  datatype Step = Boot | Saved | Live

  function Messages(chats: Chats, chat: ChatId): seq<Message> {
    if chat in chats then chats[chat] else []
  }

  /** The questions a chat holds, in order: turn n asked the n-th. */
  function Asked(messages: seq<Message>): seq<string> {
    if messages == [] then []
    else
      Asked(messages[..|messages| - 1])
      + (if messages[|messages| - 1].User? then [messages[|messages| - 1].text] else [])
  }

  function Said(turns: seq<Turn>): seq<Message> {
    if turns == [] then []
    else
      var t := turns[|turns| - 1];
      Said(turns[..|turns| - 1]) + [User(t.question), Assistant(t.answer)]
  }

  function SaveEntry(chats: Chats, e: Entry): Chats {
    chats[e.chat := Messages(chats, e.chat) + Said(e.turns)]
  }

  function SaveAll(chats: Chats, entries: seq<Entry>): Chats {
    if entries == [] then chats else SaveEntry(SaveAll(chats, entries[..|entries| - 1]), entries[|entries| - 1])
  }

  /** The live writes of an entry's first `n` turns, numbered after the `base`
      turns its chat held. */
  function LiveOf(base: nat, e: Entry, n: nat): seq<Episode>
    requires n <= |e.turns|
  {
    if n == 0 then []
    else
      LiveOf(base, e, n - 1)
      + (if e.turns[n - 1].live then [Episode(e.chat, base + n, e.turns[n - 1].question)] else [])
  }

  function LiveWrites(chats: Chats, entries: seq<Entry>): seq<Episode> {
    if entries == [] then []
    else
      var before, e := entries[..|entries| - 1], entries[|entries| - 1];
      LiveWrites(chats, before) + LiveOf(|Asked(Messages(SaveAll(chats, before), e.chat))|, e, |e.turns|)
  }

  /** How far a cycle came: `saved` entries are in the chat store, and the last
      of them was gone through up to its turn `through`. */
  datatype Reach = Reach(saved: nat, through: nat)

  predicate Reached(entries: seq<Entry>, r: Reach) {
    r.saved <= |entries| && (if r.saved == 0 then r.through == 0 else r.through <= |entries[r.saved - 1].turns|)
  }

  predicate Finished(entries: seq<Entry>, r: Reach) {
    r.saved == |entries| && (r.saved > 0 ==> r.through == |entries[r.saved - 1].turns|)
  }

  /** The live writes of a cycle that came so far. */
  function Writes(chats: Chats, entries: seq<Entry>, r: Reach): seq<Episode>
    requires Reached(entries, r)
  {
    if r.saved == 0 then []
    else
      var before, e := entries[..r.saved - 1], entries[r.saved - 1];
      LiveWrites(chats, before) + LiveOf(|Asked(Messages(SaveAll(chats, before), e.chat))|, e, r.through)
  }

  /* ---- the child ---- */

  method CountAsked(messages: seq<Message>) returns (n: nat)
    ensures n == |Asked(messages)|
  {
    n := 0;
    for i := 0 to |messages|
      invariant n == |Asked(messages[..i])|
    {
      assert messages[..i + 1][..i] == messages[..i];
      if messages[i].User? {
        n := n + 1;
      }
    }
    assert messages[..|messages|] == messages;
  }

  /** The stores a cycle writes: the chats, and the live writes so far. */
  class MemoryStores {
    var chats: Chats
    var written: seq<Episode>

    /** One plan entry saved: its new turns appended and numbered. */
    method Save(e: Entry) returns (base: nat)
      modifies this`chats
      ensures base == |Asked(Messages(old(chats), e.chat))|
      ensures chats == SaveEntry(old(chats), e)
    {
      var messages := Messages(chats, e.chat);
      base := CountAsked(messages);
      for k := 0 to |e.turns|
        invariant messages == Messages(chats, e.chat) + Said(e.turns[..k])
      {
        assert e.turns[..k + 1][..k] == e.turns[..k];
        messages := messages + [User(e.turns[k].question), Assistant(e.turns[k].answer)];
      }
      assert e.turns[..|e.turns|] == e.turns;
      chats := chats[e.chat := messages];
    }

    /** The entry's live turns, written one by one until a step kills. */
    method WriteLive(e: Entry, base: nat, before: seq<Step>, dies: seq<Step> -> bool)
      returns (through: nat, steps: seq<Step>, killed: bool)
      requires before != [] && Survived(before, dies) && !dies(before)
      modifies this`written
      ensures through <= |e.turns| && written == old(written) + LiveOf(base, e, through)
      ensures steps != [] && Survived(steps, dies) && (killed <==> dies(steps))
      ensures !killed ==> through == |e.turns|
    {
      hide Survived;
      through, steps, killed := 0, before, false;
      while through < |e.turns|
        invariant through <= |e.turns| && written == old(written) + LiveOf(base, e, through)
        invariant steps != [] && Survived(steps, dies) && !killed && !dies(steps)
      {
        through := through + 1;
        if e.turns[through - 1].live {
          written := written + [Episode(e.chat, base + through, e.turns[through - 1].question)];
          StepTaken(steps, Live, dies);
          steps := steps + [Live];
          killed := dies(steps);
          if killed {
            return;
          }
        }
      }
    }

    /** The chats of a plan: each saved, then its live turns written.  The
        cycle is killed after the first step that `dies` says. */
    method RunChats(entries: seq<Entry>, dies: seq<Step> -> bool) returns (r: Reach, steps: seq<Step>, killed: bool)
      modifies this
      ensures RanTo(old(chats), old(written), entries, r, chats, written) && (!killed ==> Finished(entries, r))
      ensures Survived(steps, dies) && (killed <==> dies(steps))
    {
      hide Survived, RanTo, LiveOf, SaveEntry, Asked, Messages;
      r, steps := Reach(0, 0), [Boot];
      killed := dies(steps);
      NothingRun(chats, written, entries);
      JustBooted(dies);
      if killed {
        return;
      }
      while r.saved < |entries|
        invariant r.saved <= |entries| && (r.saved > 0 ==> r.through == |entries[r.saved - 1].turns|)
        invariant RanTo(old(chats), old(written), entries, r, chats, written)
        invariant steps != [] && Survived(steps, dies) && !dies(steps) && !killed
        decreases |entries| - r.saved
      {
        ghost var was, wrote := chats, written;
        var e := entries[r.saved];
        var base := Save(e);
        ghost var before := r;
        r := Reach(r.saved + 1, 0);
        EntryRun(old(chats), old(written), entries, before, was, wrote, 0);
        StepTaken(steps, Saved, dies);
        steps := steps + [Saved];
        killed := dies(steps);
        if killed {
          return;
        }
        var through;
        through, steps, killed := WriteLive(e, base, steps, dies);
        r := Reach(r.saved, through);
        EntryRun(old(chats), old(written), entries, before, was, wrote, through);
        if killed {
          return;
        }
      }
    }
  }

  /** What a cycle that came so far left in the stores. */
  predicate RanTo(chats0: Chats, written0: seq<Episode>, entries: seq<Entry>, r: Reach, chats: Chats, written: seq<Episode>) {
    Reached(entries, r) && chats == SaveAll(chats0, entries[..r.saved]) && written == written0 + Writes(chats0, entries, r)
  }

  lemma NothingRun(chats: Chats, written: seq<Episode>, entries: seq<Entry>)
    ensures RanTo(chats, written, entries, Reach(0, 0), chats, written)
  {
  }

  /** The next entry, gone through up to turn `n`. */
  lemma EntryRun(chats0: Chats, written0: seq<Episode>, entries: seq<Entry>, r: Reach,
                 chats: Chats, written: seq<Episode>, n: nat)
    requires RanTo(chats0, written0, entries, r, chats, written) && r.saved < |entries| && n <= |entries[r.saved].turns|
    requires r.saved > 0 ==> r.through == |entries[r.saved - 1].turns|
    ensures var e := entries[r.saved];
            && written + LiveOf(|Asked(Messages(chats, e.chat))|, e, 0) == written
            && RanTo(chats0, written0, entries, Reach(r.saved + 1, n),
                     SaveEntry(chats, e), written + LiveOf(|Asked(Messages(chats, e.chat))|, e, n))
  {
    hide Asked, SaveEntry, SaveAll, LiveOf, LiveWrites, Writes, Messages;
    var i, e := r.saved, entries[r.saved];
    NoneLive(|Asked(Messages(chats, e.chat))|, e);
    SaveNext(chats0, entries, i);
    WritesNext(chats0, entries, r, n);
    Appended(written0, Writes(chats0, entries, r), LiveOf(|Asked(Messages(chats, e.chat))|, e, n));
  }

  lemma Appended<T>(a: seq<T>, b: seq<T>, c: seq<T>)
    ensures a + b + c == a + (b + c)
  {
  }

  lemma WritesNext(chats: Chats, entries: seq<Entry>, r: Reach, n: nat)
    requires Reached(entries, r) && r.saved < |entries| && n <= |entries[r.saved].turns|
    requires r.saved > 0 ==> r.through == |entries[r.saved - 1].turns|
    ensures var e := entries[r.saved];
            Writes(chats, entries, Reach(r.saved + 1, n)) ==
              Writes(chats, entries, r) + LiveOf(|Asked(Messages(SaveAll(chats, entries[..r.saved]), e.chat))|, e, n)
  {
    hide Asked, SaveAll, LiveOf, LiveWrites, Messages;
    WritesUpTo(chats, entries, r);
  }

  lemma NoneLive(base: nat, e: Entry)
    ensures LiveOf(base, e, 0) == []
  {
  }

  lemma SaveNext(chats: Chats, entries: seq<Entry>, i: nat)
    requires i < |entries|
    ensures SaveAll(chats, entries[..i + 1]) == SaveEntry(SaveAll(chats, entries[..i]), entries[i])
  {
    assert entries[..i + 1][..i] == entries[..i];
  }

  lemma WritesUpTo(chats: Chats, entries: seq<Entry>, r: Reach)
    requires Reached(entries, r) && (r.saved > 0 ==> r.through == |entries[r.saved - 1].turns|)
    ensures Writes(chats, entries, r) == LiveWrites(chats, entries[..r.saved])
  {
    hide LiveOf, SaveAll, Asked, Messages;
    if r.saved > 0 {
      assert entries[..r.saved][..r.saved - 1] == entries[..r.saved - 1];
    }
  }

  /** No step before the last killed the cycle. */
  predicate Survived(steps: seq<Step>, dies: seq<Step> -> bool) {
    forall n | 0 < n < |steps| :: !dies(steps[..n])
  }

  lemma JustBooted(dies: seq<Step> -> bool)
    ensures Survived([Boot], dies)
  {
  }

  lemma StepTaken(steps: seq<Step>, s: Step, dies: seq<Step> -> bool)
    requires steps != [] && Survived(steps, dies) && !dies(steps)
    ensures Survived(steps + [s], dies)
  {
    var more := steps + [s];
    forall n | 0 < n < |more| ensures !dies(more[..n]) {
      assert more[..n] == steps[..n] && steps[..|steps|] == steps;
    }
  }

  /* ---- the numbers the parent derives ---- */

  /** Turn `e.number` of the chat, as the chat store holds it, asked the
      question. */
  predicate Settled(chats: Chats, e: Episode) {
    var asked := Asked(Messages(chats, e.chat));
    1 <= e.number <= |asked| && asked[e.number - 1] == e.question
  }

  method SettledOf(chat: ChatId, messages: seq<Message>) returns (turns: seq<Episode>)
    ensures |turns| == |Asked(messages)|
    ensures forall i | 0 <= i < |turns| :: turns[i] == Episode(chat, i + 1, Asked(messages)[i])
  {
    turns := [];
    var turn := 0;
    for i := 0 to |messages|
      invariant turn == |turns| == |Asked(messages[..i])|
      invariant forall j | 0 <= j < |turns| :: turns[j] == Episode(chat, j + 1, Asked(messages[..i])[j])
    {
      assert messages[..i + 1][..i] == messages[..i];
      if messages[i].User? {
        turn := turn + 1;
        turns := turns + [Episode(chat, turn, messages[i].text)];
      }
    }
    assert messages[..|messages|] == messages;
  }

  /** `_settled_turns`: every turn of every chat, once. */
  method SettledTurns(chats: Chats) returns (out: seq<Episode>)
    ensures forall e :: e in out <==> Settled(chats, e)
    ensures forall i, j | 0 <= i < j < |out| :: out[i] != out[j]
  {
    out := [];
    var todo := chats.Keys;
    while todo != {}
      invariant todo <= chats.Keys
      invariant forall e :: e in out <==> Settled(chats, e) && e.chat !in todo
      invariant forall i, j | 0 <= i < j < |out| :: out[i] != out[j]
      decreases todo
    {
      var chat :| chat in todo;
      var turns := SettledOf(chat, chats[chat]);
      ghost var before := out;
      out := out + turns;
      todo := todo - {chat};
      forall e ensures e in out <==> Settled(chats, e) && e.chat !in todo {
        if e.chat == chat {
          OfChat(chats, e, turns);
        }
      }
      assert forall i | 0 <= i < |before| :: before[i] in before;
    }
  }

  lemma OfChat(chats: Chats, e: Episode, turns: seq<Episode>)
    requires e.chat in chats && |turns| == |Asked(chats[e.chat])|
    requires forall i | 0 <= i < |turns| :: turns[i] == Episode(e.chat, i + 1, Asked(chats[e.chat])[i])
    ensures e in turns <==> Settled(chats, e)
  {
    if Settled(chats, e) {
      assert turns[e.number - 1] == e;
    }
  }

  /* ---- what saving does to the numbers ---- */

  lemma {:induction false} AskedAppend(a: seq<Message>, b: seq<Message>)
    ensures Asked(a + b) == Asked(a) + Asked(b)
  {
    if b == [] {
      assert a + b == a;
    } else {
      AskedAppend(a, b[..|b| - 1]);
      assert (a + b)[..|a + b| - 1] == a + b[..|b| - 1];
    }
  }

  lemma {:induction false} AskedSaid(turns: seq<Turn>)
    ensures |Asked(Said(turns))| == |turns|
    ensures forall k | 0 <= k < |turns| :: Asked(Said(turns))[k] == turns[k].question
  {
    if turns != [] {
      var t, init := turns[|turns| - 1], turns[..|turns| - 1];
      AskedSaid(init);
      var said := Said(turns);
      assert said[..|said| - 1] == Said(init) + [User(t.question)];
      assert (Said(init) + [User(t.question)])[..|Said(init)|] == Said(init);
    }
  }

  /** Saving appends: no turn of any chat changes its number. */
  lemma SaveAsks(chats: Chats, e: Entry, c: ChatId)
    ensures var was, now := Asked(Messages(chats, c)), Asked(Messages(SaveEntry(chats, e), c));
            && was <= now && (c != e.chat ==> now == was)
            && |now| == |was| + (if c == e.chat then |e.turns| else 0)
            && (c == e.chat ==> forall k | 0 <= k < |e.turns| :: now[|was| + k] == e.turns[k].question)
  {
    hide Asked, Said;
    if c == e.chat {
      AskedAppend(Messages(chats, c), Said(e.turns));
      AskedSaid(e.turns);
    }
  }

  /** And what a chat then holds at its end is each new turn's question with its
      answer behind it, in their order. */
  lemma SaveSays(chats: Chats, e: Entry, c: ChatId)
    ensures var was, now := Messages(chats, c), Messages(SaveEntry(chats, e), c);
            if c != e.chat then now == was
            else
              && |now| == |was| + 2 * |e.turns| && now[..|was|] == was
              && forall k | 0 <= k < |e.turns| ::
                   now[|was| + 2 * k] == User(e.turns[k].question) && now[|was| + 2 * k + 1] == Assistant(e.turns[k].answer)
  {
    SaidInTurn(e.turns);
    hide Said;
  }

  lemma {:induction false} SaidInTurn(turns: seq<Turn>)
    ensures |Said(turns)| == 2 * |turns|
    ensures forall k | 0 <= k < |turns| ::
              Said(turns)[2 * k] == User(turns[k].question) && Said(turns)[2 * k + 1] == Assistant(turns[k].answer)
  {
    if turns != [] {
      SaidInTurn(turns[..|turns| - 1]);
    }
  }

  lemma {:induction false} SaveAllAsks(chats: Chats, entries: seq<Entry>, c: ChatId)
    ensures Asked(Messages(chats, c)) <= Asked(Messages(SaveAll(chats, entries), c))
    ensures |Asked(Messages(SaveAll(chats, entries), c))| == |Asked(Messages(chats, c))| + TurnsOf(entries, c)
  {
    hide Asked, SaveEntry, Messages;
    if entries != [] {
      SaveAllAsks(chats, entries[..|entries| - 1], c);
      SaveAsks(SaveAll(chats, entries[..|entries| - 1]), entries[|entries| - 1], c);
    }
  }

  /** How many turns the entries hold for a chat, twice named or not. */
  function TurnsOf(entries: seq<Entry>, c: ChatId): nat {
    if entries == [] then 0
    else
      var e := entries[|entries| - 1];
      TurnsOf(entries[..|entries| - 1], c) + (if e.chat == c then |e.turns| else 0)
  }

  lemma StaysSettled(chats: Chats, entries: seq<Entry>, e: Episode)
    requires Settled(chats, e)
    ensures Settled(SaveAll(chats, entries), e)
  {
    hide Asked, SaveAll;
    SaveAllAsks(chats, entries, e.chat);
  }

  /** An entry's live writes are its live turns, each under its number. */
  lemma {:induction false} LiveOfExact(base: nat, e: Entry, n: nat, w: Episode)
    requires n <= |e.turns|
    ensures w in LiveOf(base, e, n) <==>
              && w.chat == e.chat && base < w.number <= base + n
              && e.turns[w.number - base - 1].live && e.turns[w.number - base - 1].question == w.question
  {
    if n > 0 {
      LiveOfExact(base, e, n - 1, w);
    }
  }

  lemma LiveOfSettled(chats: Chats, e: Entry, n: nat, w: Episode)
    requires n <= |e.turns| && w in LiveOf(|Asked(Messages(chats, e.chat))|, e, n)
    ensures Settled(SaveEntry(chats, e), w)
    ensures w.number > |Asked(Messages(chats, w.chat))|
  {
    LiveOfExact(|Asked(Messages(chats, e.chat))|, e, n, w);
    SaveAsks(chats, e, e.chat);
    hide Asked;
  }

  lemma {:induction false} LiveWritesSettled(chats: Chats, entries: seq<Entry>, w: Episode)
    requires w in LiveWrites(chats, entries)
    ensures Settled(SaveAll(chats, entries), w)
    ensures w.number > |Asked(Messages(chats, w.chat))|
  {
    hide Asked, Messages, SaveEntry, Settled, LiveOf;
    var before, e := entries[..|entries| - 1], entries[|entries| - 1];
    var saved := SaveAll(chats, before);
    if w in LiveWrites(chats, before) {
      LiveWritesSettled(chats, before, w);
      assert SaveAll(saved, [e]) == SaveEntry(saved, e) by { SaveOne(saved, e); }
      StaysSettled(saved, [e], w);
    } else {
      LiveOfSettled(saved, e, |e.turns|, w);
      SaveAllAsks(chats, before, w.chat);
    }
  }

  lemma SaveOne(chats: Chats, e: Entry)
    ensures SaveAll(chats, [e]) == SaveEntry(chats, e)
  {
    assert [e][..0] == [];
  }

  lemma WritesSettled(chats: Chats, entries: seq<Entry>, r: Reach, w: Episode)
    requires Reached(entries, r) && w in Writes(chats, entries, r)
    ensures Settled(SaveAll(chats, entries[..r.saved]), w)
    ensures w.number > |Asked(Messages(chats, w.chat))|
  {
    hide Asked, Messages, SaveEntry, Settled, LiveOf;
    var before, e := entries[..r.saved - 1], entries[r.saved - 1];
    var saved := SaveAll(chats, before);
    assert entries[..r.saved][..r.saved - 1] == before;
    if w in LiveWrites(chats, before) {
      LiveWritesSettled(chats, before, w);
      SaveOne(saved, e);
      StaysSettled(saved, [e], w);
    } else {
      LiveOfSettled(saved, e, r.through, w);
      SaveAllAsks(chats, before, w.chat);
    }
  }

  /* ---- each turn is written live at most once ---- */

  /** The writes of a chat come with growing numbers. */
  predicate Ascending(written: seq<Episode>) {
    forall i, j | 0 <= i < j < |written| && written[i].chat == written[j].chat :: written[i].number < written[j].number
  }

  lemma AscendingAppend(chats: Chats, a: seq<Episode>, b: seq<Episode>)
    requires Ascending(a) && Ascending(b)
    requires forall w | w in a :: w.number <= |Asked(Messages(chats, w.chat))|
    requires forall w | w in b :: w.number > |Asked(Messages(chats, w.chat))|
    ensures Ascending(a + b)
  {
    hide Asked, Messages;
    var all := a + b;
    forall i, j | 0 <= i < j < |all| && all[i].chat == all[j].chat ensures all[i].number < all[j].number {
      if i < |a| <= j {
        assert all[i] in a && all[j] in b;
      }
    }
  }

  lemma {:induction false} LiveOfAscends(base: nat, e: Entry, n: nat)
    requires n <= |e.turns|
    ensures Ascending(LiveOf(base, e, n))
  {
    if n > 0 {
      LiveOfAscends(base, e, n - 1);
      forall w | w in LiveOf(base, e, n - 1) ensures w.number < base + n {
        LiveOfExact(base, e, n - 1, w);
      }
    }
  }

  lemma {:induction false} LiveWritesAscend(chats: Chats, entries: seq<Entry>)
    ensures Ascending(LiveWrites(chats, entries))
  {
    hide Asked, Messages, LiveOf, Ascending;
    if entries == [] {
      assert Ascending([]) by { Nothing(); }
      return;
    }
    LiveWritesAscend(chats, entries[..|entries| - 1]);
    MoreAscends(chats, entries[..|entries| - 1], entries[|entries| - 1], |entries[|entries| - 1].turns|);
  }

  lemma Nothing()
    ensures Ascending([])
  {
  }

  lemma MoreAscends(chats: Chats, before: seq<Entry>, e: Entry, n: nat)
    requires n <= |e.turns| && Ascending(LiveWrites(chats, before))
    ensures Ascending(LiveWrites(chats, before) + LiveOf(|Asked(Messages(SaveAll(chats, before), e.chat))|, e, n))
  {
    hide Asked, Messages, LiveOf, LiveWrites, Ascending;
    var saved := SaveAll(chats, before);
    var base := |Asked(Messages(saved, e.chat))|;
    LiveOfAscends(base, e, n);
    forall w | w in LiveWrites(chats, before) ensures w.number <= |Asked(Messages(saved, w.chat))| {
      LiveWritesSettled(chats, before, w);
    }
    forall w | w in LiveOf(base, e, n) ensures w.number > |Asked(Messages(saved, w.chat))| {
      LiveOfSettled(saved, e, n, w);
    }
    AscendingAppend(saved, LiveWrites(chats, before), LiveOf(base, e, n));
  }

  /* ---- runs ---- */

  /** A cycle: what the parent drew, and how far the child came. */
  datatype Draw = Draw(isNew: bool, entry: Entry)
  datatype Cycle = Cycle(draws: seq<Draw>, reach: Reach)
  datatype World = World(chats: Chats, written: seq<Episode>, counts: map<ChatId, nat>)

  function Entries(draws: seq<Draw>): (entries: seq<Entry>)
    ensures |entries| == |draws|
  {
    seq(|draws|, i requires 0 <= i < |draws| => draws[i].entry)
  }

  ghost predicate Possible(cycles: seq<Cycle>) {
    forall i | 0 <= i < |cycles| :: Reached(Entries(cycles[i].draws), cycles[i].reach)
  }

  function Count(counts: map<ChatId, nat>, c: ChatId): nat {
    if c in counts then counts[c] else 0
  }

  /** The parent's counters after planning: a chat drawn fresh starts at zero. */
  function Planned(counts: map<ChatId, nat>, draws: seq<Draw>): map<ChatId, nat> {
    if draws == [] then counts
    else
      PlannedChat(Planned(counts, draws[..|draws| - 1]), draws[|draws| - 1])
  }

  function PlannedChat(counts: map<ChatId, nat>, d: Draw): map<ChatId, nat> {
    counts[d.entry.chat := (if d.isNew then 0 else Count(counts, d.entry.chat)) + |d.entry.turns|]
  }

  /** The parent's side: its counters and the list of every turn it planned. */
  class Parent {
    var counts: map<ChatId, nat>
    var memory: seq<Turn>

    /** One turn at a time, counted and remembered. */
    method PlanChat(d: Draw)
      modifies this
      ensures counts == PlannedChat(old(counts), d) && memory == old(memory) + d.entry.turns
    {
      var e := d.entry;
      var n := if d.isNew then 0 else Count(counts, e.chat);
      counts := counts[e.chat := n];
      for k := 0 to |e.turns|
        invariant counts == old(counts)[e.chat := n + k] && memory == old(memory) + e.turns[..k]
      {
        counts := counts[e.chat := counts[e.chat] + 1];
        memory := memory + [e.turns[k]];
      }
      assert e.turns[..|e.turns|] == e.turns;
    }

    method Plan(draws: seq<Draw>) returns (entries: seq<Entry>)
      modifies this
      ensures entries == Entries(draws) && counts == Planned(old(counts), draws)
      ensures memory == old(memory) + AllTurns(entries)
    {
      hide PlannedChat;
      entries := [];
      for i := 0 to |draws|
        invariant entries == Entries(draws)[..i] && counts == Planned(old(counts), draws[..i])
        invariant memory == old(memory) + AllTurns(entries)
      {
        assert draws[..i + 1][..i] == draws[..i];
        PlanChat(draws[i]);
        assert (entries + [draws[i].entry])[..i] == entries;
        entries := entries + [draws[i].entry];
      }
      assert draws[..|draws|] == draws;
    }
  }

  function AllTurns(entries: seq<Entry>): seq<Turn> {
    if entries == [] then [] else AllTurns(entries[..|entries| - 1]) + entries[|entries| - 1].turns
  }

  /** What the parent remembers is every turn it planned, in order. */
  lemma {:induction false} EveryTurnRemembered(entries: seq<Entry>, i: nat, k: nat)
    requires i < |entries| && k < |entries[i].turns|
    ensures var at := |AllTurns(entries[..i])| + k; at < |AllTurns(entries)| && AllTurns(entries)[at] == entries[i].turns[k]
  {
    var n := |entries| - 1;
    if i < n {
      EveryTurnRemembered(entries[..n], i, k);
      assert entries[..n][..i] == entries[..i];
    }
  }

  function TakeCycle(w: World, c: Cycle): World
    requires Reached(Entries(c.draws), c.reach)
  {
    var entries := Entries(c.draws);
    World(SaveAll(w.chats, entries[..c.reach.saved]), w.written + Writes(w.chats, entries, c.reach), Planned(w.counts, c.draws))
  }

  const START := World(map[], [], map[])

  ghost function Ran(cycles: seq<Cycle>): World
    requires Possible(cycles)
  {
    if cycles == [] then START
    else
      var c := cycles[|cycles| - 1];
      assert Reached(Entries(c.draws), c.reach);
      TakeCycle(Ran(cycles[..|cycles| - 1]), c)
  }

  ghost predicate NumbersAgree(w: World) {
    (forall e | e in w.written :: Settled(w.chats, e)) && Ascending(w.written)
  }

  lemma CycleAgrees(w: World, c: Cycle)
    requires NumbersAgree(w) && Reached(Entries(c.draws), c.reach)
    ensures NumbersAgree(TakeCycle(w, c))
  {
    var entries := Entries(c.draws);
    var more := Writes(w.chats, entries, c.reach);
    hide Asked, SaveAll, Ascending, Entries;
    forall e | e in w.written ensures Settled(SaveAll(w.chats, entries[..c.reach.saved]), e) {
      StaysSettled(w.chats, entries[..c.reach.saved], e);
    }
    forall e | e in more
      ensures Settled(SaveAll(w.chats, entries[..c.reach.saved]), e) && e.number > |Asked(Messages(w.chats, e.chat))| {
      WritesSettled(w.chats, entries, c.reach, e);
    }
    if c.reach.saved > 0 {
      LiveWritesAscend(w.chats, entries[..c.reach.saved - 1]);
      MoreAscends(w.chats, entries[..c.reach.saved - 1], entries[c.reach.saved - 1], c.reach.through);
    } else {
      Nothing();
    }
    AscendingAppend(w.chats, w.written, more);
  }

  /** After any cycles, each killed at any step or not, every turn written live
      carries the number the chat store gives that question, and no turn was
      written twice. */
  lemma {:induction false} TurnNumbersAgree(cycles: seq<Cycle>)
    requires Possible(cycles)
    ensures NumbersAgree(Ran(cycles))
  {
    hide TakeCycle, NumbersAgree;
    if cycles == [] {
      assert NumbersAgree(START) by { StartAgrees(); }
      return;
    }
    TurnNumbersAgree(cycles[..|cycles| - 1]);
    CycleAgrees(Ran(cycles[..|cycles| - 1]), cycles[|cycles| - 1]);
  }

  lemma StartAgrees()
    ensures NumbersAgree(START)
  {
  }

  /** A cycle that was not killed wrote every live turn of its plan, under the
      number the chat store now gives it. */
  lemma LiveTurnsWritten(chats: Chats, entries: seq<Entry>, r: Reach, i: nat, k: nat)
    requires Reached(entries, r) && Finished(entries, r)
    requires i < |entries| && k < |entries[i].turns| && entries[i].turns[k].live
    ensures exists e :: && e in Writes(chats, entries, r) && e.chat == entries[i].chat
                        && e.question == entries[i].turns[k].question && Settled(SaveAll(chats, entries), e)
  {
    hide Asked, SaveAll, Settled, LiveOf;
    var base := |Asked(Messages(SaveAll(chats, entries[..i]), entries[i].chat))|;
    var e := Episode(entries[i].chat, base + k + 1, entries[i].turns[k].question);
    LiveOfExact(base, entries[i], |entries[i].turns|, e);
    LiveWritesHold(chats, entries, i, e);
    var n := |entries| - 1;
    assert entries[..n + 1] == entries;
    assert LiveWrites(chats, entries) == Writes(chats, entries, r);
    LiveWritesSettled(chats, entries, e);
  }

  lemma {:induction false} LiveWritesHold(chats: Chats, entries: seq<Entry>, i: nat, w: Episode)
    requires i < |entries|
    requires w in LiveOf(|Asked(Messages(SaveAll(chats, entries[..i]), entries[i].chat))|, entries[i], |entries[i].turns|)
    ensures w in LiveWrites(chats, entries)
  {
    hide Asked, SaveAll, LiveOf, Messages;
    if i < |entries| - 1 {
      assert entries[..|entries| - 1][..i] == entries[..i];
      LiveWritesHold(chats, entries[..|entries| - 1], i, w);
    }
  }

  /* ---- the parent's counters ---- */

  /** The turns planned for a chat that no cycle saved. */
  ghost function Lost(cycles: seq<Cycle>, c: ChatId): nat
    requires Possible(cycles)
  {
    if cycles == [] then 0
    else
      var last := cycles[|cycles| - 1];
      assert Reached(Entries(last.draws), last.reach);
      Lost(cycles[..|cycles| - 1], c) + TurnsOf(Entries(last.draws)[last.reach.saved..], c)
  }

  /** Every chat drawn fresh has a name not given out. */
  predicate FreshNames(counts: map<ChatId, nat>, draws: seq<Draw>) {
    draws == []
    || (var d := draws[|draws| - 1];
        && FreshNames(counts, draws[..|draws| - 1])
        && (d.isNew ==> d.entry.chat !in Planned(counts, draws[..|draws| - 1])))
  }

  ghost predicate AllFresh(cycles: seq<Cycle>)
    requires Possible(cycles)
  {
    cycles == []
    || (AllFresh(cycles[..|cycles| - 1]) && FreshNames(Ran(cycles[..|cycles| - 1]).counts, cycles[|cycles| - 1].draws))
  }

  lemma {:induction false} PlannedCounts(counts: map<ChatId, nat>, draws: seq<Draw>, c: ChatId)
    requires FreshNames(counts, draws)
    ensures Count(Planned(counts, draws), c) == Count(counts, c) + TurnsOf(Entries(draws), c)
  {
    if draws != [] {
      PlannedCounts(counts, draws[..|draws| - 1], c);
      assert Entries(draws)[..|draws| - 1] == Entries(draws[..|draws| - 1]);
    }
  }

  lemma {:induction false} TurnsOfSplit(entries: seq<Entry>, n: nat, c: ChatId)
    requires n <= |entries|
    ensures TurnsOf(entries, c) == TurnsOf(entries[..n], c) + TurnsOf(entries[n..], c)
  {
    if n == |entries| {
      assert entries[..n] == entries;
    } else {
      TurnsOfSplit(entries[..|entries| - 1], n, c);
      assert entries[..|entries| - 1][..n] == entries[..n];
      assert entries[n..][..|entries| - n - 1] == entries[..|entries| - 1][n..];
    }
  }

  /** The parent's counter of a chat is the number of turns the chat store
      holds plus those planned by cycles killed before saving them: never
      less, and equal just when no such cycle was. */
  lemma {:induction false} CountersAhead(cycles: seq<Cycle>, c: ChatId)
    requires Possible(cycles) && AllFresh(cycles)
    ensures Count(Ran(cycles).counts, c) == |Asked(Messages(Ran(cycles).chats, c))| + Lost(cycles, c)
  {
    EmptyAsks(c);
    hide Asked, SaveAll, Planned, FreshNames, TurnsOf, Writes;
    if cycles != [] {
      var last := cycles[|cycles| - 1];
      CountersAhead(cycles[..|cycles| - 1], c);
      var w := Ran(cycles[..|cycles| - 1]);
      PlannedCounts(w.counts, last.draws, c);
      assert Reached(Entries(last.draws), last.reach);
      TurnsOfSplit(Entries(last.draws), last.reach.saved, c);
      SaveAllAsks(w.chats, Entries(last.draws)[..last.reach.saved], c);
    }
  }

  /* When a counter is right, exactly. */

  /** Every drawn chat says something, as the script plans it. */
  ghost predicate Spoken(cycles: seq<Cycle>) {
    forall i | 0 <= i < |cycles| :: AllSpoken(cycles[i].draws)
  }

  predicate AllSpoken(draws: seq<Draw>) {
    forall i | 0 <= i < |draws| :: draws[i].entry.turns != []
  }

  predicate Positive(counts: map<ChatId, nat>) {
    forall c | c in counts :: counts[c] > 0
  }

  lemma TurnsOfOneMore(draws: seq<Draw>, c: ChatId)
    requires draws != []
    ensures var n := |draws| - 1;
            TurnsOf(Entries(draws), c)
            == TurnsOf(Entries(draws[..n]), c) + (if draws[n].entry.chat == c then |draws[n].entry.turns| else 0)
  {
    assert Entries(draws)[..|draws| - 1] == Entries(draws[..|draws| - 1]);
  }

  /** A counter never runs ahead of what was planned. */
  lemma {:induction false} PlannedAtMost(counts: map<ChatId, nat>, draws: seq<Draw>, c: ChatId)
    ensures Count(Planned(counts, draws), c) <= Count(counts, c) + TurnsOf(Entries(draws), c)
  {
    hide Entries, TurnsOf;
    if draws == [] {
      NoTurns(c);
    } else {
      PlannedAtMost(counts, draws[..|draws| - 1], c);
      TurnsOfOneMore(draws, c);
    }
  }

  lemma NoTurns(c: ChatId)
    ensures TurnsOf(Entries([]), c) == 0
  {
  }

  lemma {:induction false} PlannedPositive(counts: map<ChatId, nat>, draws: seq<Draw>)
    requires Positive(counts) && AllSpoken(draws)
    ensures Positive(Planned(counts, draws))
  {
    if draws != [] {
      PlannedPositive(counts, draws[..|draws| - 1]);
    }
  }

  /** A name drawn as new although it was given out loses what was counted for
      it, for good. */
  lemma {:induction false} ResetLoses(counts: map<ChatId, nat>, draws: seq<Draw>) returns (c: ChatId)
    requires Positive(counts) && AllSpoken(draws) && !FreshNames(counts, draws)
    ensures Count(Planned(counts, draws), c) < Count(counts, c) + TurnsOf(Entries(draws), c)
  {
    hide Entries, TurnsOf;
    var init, d := draws[..|draws| - 1], draws[|draws| - 1];
    if !FreshNames(counts, init) {
      c := ResetLoses(counts, init);
    } else {
      c := d.entry.chat;
      PlannedPositive(counts, init);
      PlannedAtMost(counts, init, c);
    }
    TurnsOfOneMore(draws, c);
  }

  lemma {:induction false} RanPositive(cycles: seq<Cycle>)
    requires Possible(cycles) && Spoken(cycles)
    ensures Positive(Ran(cycles).counts)
  {
    hide SaveAll, Writes, Planned;
    if cycles != [] {
      RanPositive(cycles[..|cycles| - 1]);
      PlannedPositive(Ran(cycles[..|cycles| - 1]).counts, cycles[|cycles| - 1].draws);
    }
  }

  /** What a chat's counter should be. */
  ghost function Due(cycles: seq<Cycle>, c: ChatId): nat
    requires Possible(cycles)
  {
    |Asked(Messages(Ran(cycles).chats, c))| + Lost(cycles, c)
  }

  lemma DueOneMore(cycles: seq<Cycle>, c: ChatId)
    requires Possible(cycles) && cycles != []
    ensures var n := |cycles| - 1;
            Due(cycles, c) == Due(cycles[..n], c) + TurnsOf(Entries(cycles[n].draws), c)
  {
    hide Asked, SaveAll, Planned, TurnsOf, Writes;
    var last := cycles[|cycles| - 1];
    var w := Ran(cycles[..|cycles| - 1]);
    assert Reached(Entries(last.draws), last.reach);
    TurnsOfSplit(Entries(last.draws), last.reach.saved, c);
    SaveAllAsks(w.chats, Entries(last.draws)[..last.reach.saved], c);
  }

  lemma RanCounts(cycles: seq<Cycle>)
    requires Possible(cycles) && cycles != []
    ensures Ran(cycles).counts == Planned(Ran(cycles[..|cycles| - 1]).counts, cycles[|cycles| - 1].draws)
  {
    hide SaveAll, Writes, Planned;
  }

  lemma {:induction false} CountersAtMost(cycles: seq<Cycle>, c: ChatId)
    requires Possible(cycles)
    ensures Count(Ran(cycles).counts, c) <= Due(cycles, c)
  {
    hide Due, TurnsOf, Planned, TakeCycle;
    if cycles != [] {
      var n := |cycles| - 1;
      CountersAtMost(cycles[..n], c);
      RanCounts(cycles);
      PlannedAtMost(Ran(cycles[..n]).counts, cycles[n].draws, c);
      DueOneMore(cycles, c);
    }
  }

  lemma {:induction false} NameAgainLoses(cycles: seq<Cycle>) returns (c: ChatId)
    requires Possible(cycles) && Spoken(cycles) && !AllFresh(cycles)
    ensures Count(Ran(cycles).counts, c) < Due(cycles, c)
  {
    hide Due, TurnsOf, Planned, TakeCycle, FreshNames, AllSpoken, Ran;
    var n := |cycles| - 1;
    var before := Ran(cycles[..n]).counts;
    RanCounts(cycles);
    if !AllFresh(cycles[..n]) {
      c := NameAgainLoses(cycles[..n]);
      PlannedAtMost(before, cycles[n].draws, c);
    } else {
      RanPositive(cycles[..n]);
      c := ResetLoses(before, cycles[n].draws);
      CountersAhead(cycles[..n], c);
      CountersRight(cycles[..n], c);
    }
    DueOneMore(cycles, c);
  }

  lemma CountersRight(cycles: seq<Cycle>, c: ChatId)
    requires Possible(cycles) && Count(Ran(cycles).counts, c) == |Asked(Messages(Ran(cycles).chats, c))| + Lost(cycles, c)
    ensures Count(Ran(cycles).counts, c) == Due(cycles, c)
  {
  }

  /** The parent counts every chat's turns right, those stored and those no
      cycle came to save, if and only if no name drawn as new was given out
      before.  It never counts too many. */
  lemma CountersExact(cycles: seq<Cycle>)
    requires Possible(cycles) && Spoken(cycles)
    ensures AllFresh(cycles) <==> forall c :: Count(Ran(cycles).counts, c) == Due(cycles, c)
    ensures forall c :: Count(Ran(cycles).counts, c) <= Due(cycles, c)
  {
    hide Ran, Due;
    forall c ensures Count(Ran(cycles).counts, c) <= Due(cycles, c) {
      CountersAtMost(cycles, c);
    }
    if AllFresh(cycles) {
      forall c ensures Count(Ran(cycles).counts, c) == Due(cycles, c) {
        CountersAhead(cycles, c);
        CountersRight(cycles, c);
      }
    } else {
      var c := NameAgainLoses(cycles);
    }
  }

  /** A name drawn fresh twice in one plan sets the counter back, and the
      parent counts fewer turns than the chat store holds.  Nothing reads the
      counter's value: the child numbers from the store. */
  lemma NameDrawnTwice()
    ensures var e := Entry(0, [Turn("q", "a", true)]);
            var c := Cycle([Draw(true, e), Draw(true, e)], Reach(2, 1));
            Possible([c]) && Count(Ran([c]).counts, 0) == 1 && |Asked(Messages(Ran([c]).chats, 0))| == 2
  {
    var e := Entry(0, [Turn("q", "a", true)]);
    var d := Draw(true, e);
    var c := Cycle([d, d], Reach(2, 1));
    assert Possible([c]);
    assert Entries(c.draws)[..2] == [e, e];
    assert [c][..0] == [];
    hide Asked, SaveEntry, Writes, Planned;
    assert Ran([c]) == TakeCycle(START, c);
    assert Planned(map[], [d, d]) == map[0 := 1] by { DrawnTwice(d); }
    SaveAllAsks(map[], [e, e], 0);
    assert [e, e][..1] == [e] && [e][..0] == [];
    assert TurnsOf([], 0) == 0 && TurnsOf([e], 0) == 1 && TurnsOf([e, e], 0) == 2;
    EmptyAsks(0);
  }

  lemma DrawnTwice(d: Draw)
    requires d.isNew
    ensures Planned(map[], [d, d]) == map[d.entry.chat := |d.entry.turns|]
  {
    assert [d, d][..1] == [d] && [d][..0] == [];
    assert Planned(map[], []) == map[] && Planned(map[], [d]) == map[d.entry.chat := |d.entry.turns|];
  }

  lemma EmptyAsks(c: ChatId)
    ensures Asked(Messages(map[], c)) == []
  {
  }
}
