/** The reader of FTS5 leaf pages in scripts/knowledge_soak.py (`_varint`,
    `_leaf_terms`), and the writer of the format it reads: the variable-length
    integers of section 1.6 of the SQLite "Database File Format" document, and
    a page of prefix-compressed words whose footer gives their offsets.
    Reading undoes writing. */
module Fts5 {

  type Byte = b: int | 0 <= b < 256
  datatype Option<+T> = None | Some(value: T)

  /* ---- the variable-length integer ---- */

  /** The value and the position after it, from the `k`-th byte of an integer
      whose first `k` bytes were worth `value`; None past the end, where the
      program raises an IndexError. */
  function VarintFrom(blob: seq<Byte>, i: nat, k: nat, value: nat): (r: Option<(nat, nat)>)
    requires k <= 8
    ensures r.Some? ==> i + k < r.value.1 <= i + 9 && r.value.1 <= |blob|
    decreases 8 - k
  {
    if i + k >= |blob| then None
    else if k == 8 then Some((value * 256 + blob[i + 8], i + 9))
    else if blob[i + k] < 128 then Some((value * 128 + blob[i + k] % 128, i + k + 1))
    else VarintFrom(blob, i, k + 1, value * 128 + blob[i + k] % 128)
  }

  /** One byte of an integer, as the loop reads it. */
  lemma VarintStep(blob: seq<Byte>, i: nat, k: nat, value: nat)
    requires k < 8
    ensures VarintFrom(blob, i, k, value) ==
              if i + k >= |blob| then None
              else if blob[i + k] < 128 then Some((value * 128 + blob[i + k] % 128, i + k + 1))
              else VarintFrom(blob, i, k + 1, value * 128 + blob[i + k] % 128)
  {
  }

  lemma NinthByte(blob: seq<Byte>, i: nat, value: nat)
    ensures VarintFrom(blob, i, 8, value) ==
              if i + 8 >= |blob| then None else Some((value * 256 + blob[i + 8], i + 9))
  {
  }

  function ReadVarint(blob: seq<Byte>, i: nat): Option<(nat, nat)> {
    VarintFrom(blob, i, 0, 0)
  }

  method Varint(blob: seq<Byte>, i: nat) returns (r: Option<(nat, nat)>)
    ensures r == ReadVarint(blob, i)
    ensures r.Some? ==> i < r.value.1 <= i + 9 && r.value.1 <= |blob|
  {
    var value: nat := 0;
    for k := 0 to 8
      invariant ReadVarint(blob, i) == VarintFrom(blob, i, k, value)
    {
      VarintStep(blob, i, k, value);
      hide VarintFrom;
      if i + k >= |blob| {
        return None;
      }
      var byte := blob[i + k];
      value := value * 128 + byte % 128;
      if byte < 128 {
        return Some((value, i + k + 1));
      }
    }
    NinthByte(blob, i, value);
    hide VarintFrom;
    if i + 8 >= |blob| {
      return None;
    }
    return Some((value * 256 + blob[i + 8], i + 9));
  }

  /** The integer's bytes end at the `k`-th: all before it have the high bit
      set, and it has not, or is the ninth. */
  predicate EndsAt(blob: seq<Byte>, i: nat, k: nat) {
    && k <= 8 && i + k < |blob|
    && (forall j | i <= j < i + k :: blob[j] >= 128)
    && (k == 8 || blob[i + k] < 128)
  }

  lemma {:induction false} EndsFrom(blob: seq<Byte>, i: nat, k: nat, value: nat)
    requires k <= 8 && forall j | i <= j < i + k && j < |blob| :: blob[j] >= 128
    ensures VarintFrom(blob, i, k, value).Some? <==> exists n: nat :: k <= n && EndsAt(blob, i, n)
    ensures forall n: nat | k <= n && EndsAt(blob, i, n) :: VarintFrom(blob, i, k, value).Some? && VarintFrom(blob, i, k, value).value.1 == i + n + 1
    decreases 8 - k
  {
    hide VarintFrom;
    if k < 8 {
      VarintStep(blob, i, k, value);
    } else {
      NinthByte(blob, i, value);
    }
    if k < 8 && i + k < |blob| && blob[i + k] >= 128 {
      EndsFrom(blob, i, k + 1, value * 128 + blob[i + k] % 128);
    } else if i + k < |blob| {
      assert EndsAt(blob, i, k);
    }
  }

  /** Whatever the bytes, an integer is read just when it ends before they do,
      and reading goes on after its last byte. */
  lemma VarintEnds(blob: seq<Byte>, i: nat)
    ensures ReadVarint(blob, i).Some? <==> exists n: nat :: EndsAt(blob, i, n)
    ensures forall n: nat | EndsAt(blob, i, n) :: ReadVarint(blob, i).Some? && ReadVarint(blob, i).value.1 == i + n + 1
  {
    EndsFrom(blob, i, 0, 0);
    hide VarintFrom;
  }

  const BITS_56: nat := 0x100_0000_0000_0000
  const BITS_64: nat := 0x1_0000_0000_0000_0000

  /** Groups of seven bits, most significant first, every byte with its high
      bit set: the bytes before an integer's last. */
  function HighGroups(v: nat): seq<Byte> {
    if v == 0 then [] else HighGroups(v / 128) + [128 + v % 128]
  }

  /** Exactly `n` such groups. */
  function Groups(v: nat, n: nat): seq<Byte> {
    if n == 0 then [] else Groups(v / 128, n - 1) + [128 + v % 128]
  }

  /** An integer below 2^64: up to eight bytes of seven bits, or nine bytes,
      the last of which carries eight. */
  function WriteVarint(v: nat): (bytes: seq<Byte>)
    requires v < BITS_64
  {
    if v < BITS_56 then HighGroups(v / 128) + [v % 128] else Groups(v / 256, 8) + [v % 256]
  }

  function Power128(n: nat): nat {
    if n == 0 then 1 else 128 * Power128(n - 1)
  }

  lemma {:induction false} HighGroupsLength(v: nat, n: nat)
    requires v < Power128(n)
    ensures |HighGroups(v)| <= n
  {
    if v > 0 {
      HighGroupsLength(v / 128, n - 1);
    }
  }

  lemma {:induction false} GroupsLength(v: nat, n: nat)
    ensures |Groups(v, n)| == n
  {
    if n > 0 {
      GroupsLength(v / 128, n - 1);
    }
  }

  lemma ShiftIn(blob: seq<Byte>, i: nat, k: nat, high: nat, low: nat)
    requires k < 8 && low < 128 && i + k < |blob| && blob[i + k] == 128 + low
    ensures VarintFrom(blob, i, k, high) == VarintFrom(blob, i, k + 1, high * 128 + low)
  {
    VarintStep(blob, i, k, high);
    hide VarintFrom;
    assert blob[i + k] % 128 == low;
  }

  lemma Split(v: nat)
    ensures v == v / 128 * 128 + v % 128
  {
  }

  lemma DropGroup(v: nat, n: nat)
    requires n > 0 && v < Power128(n)
    ensures v / 128 < Power128(n - 1)
  {
  }

  /** The bytes around a last group, taken either way. */
  lemma Around(pre: seq<Byte>, high: seq<Byte>, last: Byte, post: seq<Byte>)
    ensures pre + high + ([last] + post) == pre + (high + [last]) + post
    ensures (pre + (high + [last]) + post)[|pre| + |high|] == last
  {
  }

  lemma StartsAtZero(pre: seq<Byte>, post: seq<Byte>)
    ensures HighGroups(0) == [] && Groups(0, 0) == [] && pre + [] + post == pre + post
    ensures ReadVarint(pre + post, |pre|) == VarintFrom(pre + post, |pre|, 0, 0)
  {
    hide VarintFrom;
  }

  lemma OneHighGroup(v: nat)
    requires v > 0
    ensures HighGroups(v) == HighGroups(v / 128) + [128 + v % 128]
  {
  }

  lemma OneGroup(v: nat, n: nat)
    requires n > 0
    ensures Groups(v, n) == Groups(v / 128, n - 1) + [128 + v % 128]
  {
  }

  lemma NoneBelowOne(v: nat)
    requires v < Power128(0)
    ensures v == 0
  {
  }

  /** Reading over groups of seven bits shifts their value in. */
  lemma {:induction false} ReadHighGroups(pre: seq<Byte>, v: nat, post: seq<Byte>)
    requires |HighGroups(v)| <= 8
    ensures ReadVarint(pre + HighGroups(v) + post, |pre|)
            == VarintFrom(pre + HighGroups(v) + post, |pre|, |HighGroups(v)|, v)
  {
    hide VarintFrom, ReadVarint, HighGroups;
    if v == 0 {
      StartsAtZero(pre, post);
      return;
    }
    var high, low := v / 128, v % 128;
    var groups := HighGroups(high);
    OneHighGroup(v);
    Split(v);
    ReadHighGroups(pre, high, [128 + low] + post);
    Around(pre, groups, 128 + low, post);
    ShiftIn(pre + (groups + [128 + low]) + post, |pre|, |groups|, high, low);
  }

  lemma {:induction false} ReadGroups(pre: seq<Byte>, v: nat, n: nat, post: seq<Byte>)
    requires n <= 8 && v < Power128(n)
    ensures |Groups(v, n)| == n
    ensures ReadVarint(pre + Groups(v, n) + post, |pre|) == VarintFrom(pre + Groups(v, n) + post, |pre|, n, v)
  {
    hide VarintFrom, ReadVarint, Groups, Power128;
    GroupsLength(v, n);
    if n == 0 {
      NoneBelowOne(v);
      StartsAtZero(pre, post);
      return;
    }
    var high, low := v / 128, v % 128;
    var groups := Groups(high, n - 1);
    OneGroup(v, n);
    Split(v);
    DropGroup(v, n);
    ReadGroups(pre, high, n - 1, [128 + low] + post);
    Around(pre, groups, 128 + low, post);
    ShiftIn(pre + (groups + [128 + low]) + post, |pre|, n - 1, high, low);
  }

  lemma Powers()
    ensures Power128(7) * 128 == Power128(8) == BITS_56
    ensures Power128(7) == 0x2_0000_0000_0000
  {
    assert Power128(1) == 128;
    assert Power128(2) == 128 * 128;
    assert Power128(3) == 128 * 128 * 128;
    assert Power128(4) == 0x1000_0000;
    assert Power128(5) == 0x8_0000_0000;
    assert Power128(6) == 0x400_0000_0000;
    assert Power128(7) == 0x2_0000_0000_0000;
  }

  /** For every 64-bit value, at any offset, between any bytes: the reader
      returns the value and the position just after it. */
  lemma VarintRoundTrip(pre: seq<Byte>, v: nat, post: seq<Byte>)
    requires v < BITS_64
    ensures 1 <= |WriteVarint(v)| <= 9
    ensures ReadVarint(pre + WriteVarint(v) + post, |pre|) == Some((v, |pre| + |WriteVarint(v)|))
  {
    hide VarintFrom, ReadVarint, HighGroups, Groups, Power128;
    Powers();
    var blob := pre + WriteVarint(v) + post;
    if v < BITS_56 {
      var high := HighGroups(v / 128);
      HighGroupsLength(v / 128, 7);
      ReadHighGroups(pre, v / 128, [v % 128] + post);
      assert pre + high + ([v % 128] + post) == blob;
      assert blob[|pre| + |high|] == v % 128;
      VarintStep(blob, |pre|, |high|, v / 128);
    } else {
      var high := Groups(v / 256, 8);
      ReadGroups(pre, v / 256, 8, [v % 256] + post);
      assert pre + high + ([v % 256] + post) == blob;
      assert blob[|pre| + 8] == v % 256;
      NinthByte(blob, |pre|, v / 256);
    }
  }

  /* ---- the leaf page ---- */

  /** Python's slice: clamped to the sequence. */
  function Slice(s: seq<Byte>, lo: nat, hi: nat): seq<Byte> {
    var h := if hi < |s| then hi else |s|;
    if lo < h then s[lo..h] else []
  }

  /** The word offsets of the footer from position `i` on: each is a distance
      from the one before. */
  function Offsets(page: seq<Byte>, i: nat, at: nat): Option<seq<nat>>
    decreases |page| - i
  {
    if i >= |page| then Some([])
    else
      var r := ReadVarint(page, i);
      if r == None then None
      else
        var rest := Offsets(page, r.value.1, at + r.value.0);
        if rest == None then None else Some([at + r.value.0] + rest.value)
  }

  /** One word: how much it shares with the one before (nothing, for the
      first), the size of the rest, and the rest. */
  function TermAt(page: seq<Byte>, offset: nat, first: bool, previous: seq<Byte>): Option<seq<Byte>> {
    if first then
      var size := ReadVarint(page, offset);
      if size == None then None
      else Some(Slice(page, size.value.1, size.value.1 + size.value.0))
    else
      var shared := ReadVarint(page, offset);
      if shared == None then None
      else
        var size := ReadVarint(page, shared.value.1);
        if size == None then None
        else Some(Slice(previous, 0, shared.value.0) + Slice(page, size.value.1, size.value.1 + size.value.0))
  }

  function Terms(page: seq<Byte>, offsets: seq<nat>, first: bool, previous: seq<Byte>): Option<seq<seq<Byte>>> {
    if offsets == [] then Some([])
    else
      var term := TermAt(page, offsets[0], first, previous);
      if term == None then None
      else
        var rest := Terms(page, offsets[1..], false, term.value);
        if rest == None then None else Some([term.value] + rest.value)
  }

  /** `int.from_bytes(page[2:4], "big")`. */
  function Footer(page: seq<Byte>): nat {
    if |page| <= 2 then 0 else if |page| == 3 then page[2] as nat else (page[2] as nat) * 256 + page[3] as nat
  }

  function ReadPage(page: seq<Byte>): Option<seq<seq<Byte>>> {
    var offsets := Offsets(page, Footer(page), 0);
    if offsets == None then None else Terms(page, offsets.value, true, [])
  }

  /** A slice holds the bytes from `lo` up to `hi`, as far as there are any. */
  lemma SliceExactly(s: seq<Byte>, lo: nat, hi: nat, k: nat)
    ensures k < |Slice(s, lo, hi)| <==> lo + k < hi && lo + k < |s|
    ensures k < |Slice(s, lo, hi)| ==> Slice(s, lo, hi)[k] == s[lo + k]
  {
  }

  /** Big-endian bytes. */
  function BigEndian(bytes: seq<Byte>): nat {
    if bytes == [] then 0 else 256 * BigEndian(bytes[..|bytes| - 1]) + bytes[|bytes| - 1]
  }

  lemma FooterIsBigEndian(page: seq<Byte>)
    ensures Footer(page) == BigEndian(Slice(page, 2, 4))
  {
    var bytes := Slice(page, 2, 4);
    if |page| >= 4 {
      assert bytes[..1] == [page[2]] && [page[2]][..0] == [];
      assert BigEndian([page[2]]) == page[2];
    } else if |page| == 3 {
      assert bytes == [page[2]] && bytes[..0] == [];
    }
  }

  /** The footer's integers, read one after the other from `at`, each ending
      where the next begins. */
  predicate Footsteps(page: seq<Byte>, i: nat, at: nat, ends: seq<nat>, offsets: seq<nat>) {
    |ends| == |offsets| && forall k | 0 <= k < |ends| :: Footstep(page, i, at, ends, offsets, k)
  }

  predicate Footstep(page: seq<Byte>, i: nat, at: nat, ends: seq<nat>, offsets: seq<nat>, k: nat)
    requires k < |ends| == |offsets|
  {
    var (from, before) := if k == 0 then (i, at) else (ends[k - 1], offsets[k - 1]);
    var r := ReadVarint(page, from);
    r.Some? && before + r.value.0 == offsets[k] && r.value.1 == ends[k]
  }

  /** Offsets are read exactly when the last of the integers ends the page; and
      when none can be read, the last begun runs past its end. */
  lemma {:induction false} OffsetsExactly(page: seq<Byte>, i: nat, at: nat) returns (ends: seq<nat>, offsets: seq<nat>)
    ensures Footsteps(page, i, at, ends, offsets)
    ensures var last := if ends == [] then i else ends[|ends| - 1];
            match Offsets(page, i, at)
            case Some(read) => read == offsets && last >= |page|
            case None => last < |page| && ReadVarint(page, last) == None
    decreases |page| - i
  {
    hide ReadVarint;
    ends, offsets := [], [];
    if i < |page| {
      var r := ReadVarint(page, i);
      if r.Some? {
        MovesOn(page, i);
        var e, o := OffsetsExactly(page, r.value.1, at + r.value.0);
        ends, offsets := [r.value.1] + e, [at + r.value.0] + o;
        forall k | 0 <= k < |ends| ensures Footstep(page, i, at, ends, offsets, k) {
          if k > 0 {
            assert Footstep(page, r.value.1, at + r.value.0, e, o, k - 1);
          }
        }
      }
    }
  }

  lemma MovesOn(page: seq<Byte>, i: nat)
    ensures ReadVarint(page, i).Some? ==> i < ReadVarint(page, i).value.1 <= |page|
  {
  }

  /** Word `k`, read after the words before it. */
  function TermAfter(page: seq<Byte>, offsets: seq<nat>, first: bool, previous: seq<Byte>, terms: seq<seq<Byte>>, k: nat): Option<seq<Byte>>
    requires k <= |terms| && k < |offsets|
  {
    TermAt(page, offsets[k], first && k == 0, if k == 0 then previous else terms[k - 1])
  }

  /** Words are read one after the other, each on the one before, up to the
      first that cannot be. */
  lemma {:induction false} TermsExactly(page: seq<Byte>, offsets: seq<nat>, first: bool, previous: seq<Byte>) returns (terms: seq<seq<Byte>>)
    ensures |terms| <= |offsets|
    ensures forall k | 0 <= k < |terms| :: TermAfter(page, offsets, first, previous, terms, k) == Some(terms[k])
    ensures match Terms(page, offsets, first, previous)
            case Some(read) => read == terms && |terms| == |offsets|
            case None =>
              |terms| < |offsets| && TermAfter(page, offsets, first, previous, terms, |terms|) == None
  {
    hide TermAt;
    terms := [];
    if offsets != [] {
      var term := TermAt(page, offsets[0], first, previous);
      if term.Some? {
        var rest := TermsExactly(page, offsets[1..], false, term.value);
        terms := [term.value] + rest;
        forall k | 0 < k <= |terms| && k < |offsets|
          ensures TermAfter(page, offsets, first, previous, terms, k) == TermAfter(page, offsets[1..], false, term.value, rest, k - 1) {
        }
      }
    }
  }

  /** `_leaf_terms`.  Both loops end: the footer's position grows with every
      integer read. */
  method LeafTerms(page: seq<Byte>) returns (r: Option<seq<seq<Byte>>>)
    ensures r == ReadPage(page)
  {
    hide ReadVarint, TermAt;
    var offsets: seq<nat> := [];
    var i: nat := Footer(page);
    var at: nat := 0;
    OntoNothing(Offsets(page, i, at));
    while i < |page|
      invariant Offsets(page, Footer(page), 0) == Onto(offsets, Offsets(page, i, at))
      decreases |page| - i
    {
      var d := Varint(page, i);
      if d == None {
        return None;
      }
      OntoOne(offsets, at + d.value.0, Offsets(page, d.value.1, at + d.value.0));
      at := at + d.value.0;
      i := d.value.1;
      offsets := offsets + [at];
    }
    var terms: seq<seq<Byte>> := [];
    var previous: seq<Byte> := [];
    assert offsets[0..] == offsets;
    assert Offsets(page, i, at) == Some([]);
    assert offsets + [] == offsets;
    OntoNothing(Terms(page, offsets, true, previous));
    for n := 0 to |offsets|
      invariant ReadPage(page) == Onto(terms, Terms(page, offsets[n..], n == 0, previous))
    {
      assert offsets[n..][0] == offsets[n] && offsets[n..][1..] == offsets[n + 1..];
      var term := ReadTerm(page, offsets[n], n == 0, previous);
      if term == None {
        return None;
      }
      OntoOne(terms, term.value, Terms(page, offsets[n + 1..], false, term.value));
      terms := terms + [term.value];
      previous := term.value;
    }
    assert terms + [] == terms;
    return Some(terms);
  }

  /** What was read so far, before what is read next. */
  function Onto<T>(done: seq<T>, rest: Option<seq<T>>): (r: Option<seq<T>>) {
    if rest == None then None else Some(done + rest.value)
  }

  lemma OntoNothing<T>(rest: Option<seq<T>>)
    ensures Onto([], rest) == rest
  {
    if rest.Some? {
      assert [] + rest.value == rest.value;
    }
  }

  lemma OntoOne<T>(done: seq<T>, x: T, rest: Option<seq<T>>)
    ensures Onto(done, if rest == None then None else Some([x] + rest.value)) == Onto(done + [x], rest)
  {
    if rest.Some? {
      assert done + ([x] + rest.value) == done + [x] + rest.value;
    }
  }

  method ReadTerm(page: seq<Byte>, offset: nat, first: bool, previous: seq<Byte>) returns (term: Option<seq<Byte>>)
    ensures term == TermAt(page, offset, first, previous)
  {
    hide ReadVarint;
    if first {
      var size := Varint(page, offset);
      if size == None {
        return None;
      }
      return Some(Slice(page, size.value.1, size.value.1 + size.value.0));
    }
    var shared := Varint(page, offset);
    if shared == None {
      return None;
    }
    var size := Varint(page, shared.value.1);
    if size == None {
      return None;
    }
    return Some(Slice(previous, 0, shared.value.0) + Slice(page, size.value.1, size.value.1 + size.value.0));
  }

  /* ---- the writer ---- */

  /** A word, how much of the word before it is not written again, and what
      stands between its record and the next (its row lists). */
  datatype Entry = Entry(word: seq<Byte>, shared: nat, filler: seq<Byte>)

  /** The shared lengths are of true common prefixes; a page's first word is
      written whole. */
  predicate Writable(entries: seq<Entry>, first: bool, previous: seq<Byte>) {
    entries == [] ||
    var e := entries[0];
    && |e.word| < BITS_64
    && (if first then e.shared == 0
        else e.shared <= |previous| && e.shared <= |e.word| && e.word[..e.shared] == previous[..e.shared])
    && Writable(entries[1..], false, e.word)
  }

  function Words(entries: seq<Entry>): seq<seq<Byte>> {
    if entries == [] then [] else [entries[0].word] + Words(entries[1..])
  }

  function Record(e: Entry, first: bool): seq<Byte>
    requires e.shared <= |e.word| < BITS_64
  {
    (if first then [] else WriteVarint(e.shared)) + WriteVarint(|e.word| - e.shared) + e.word[e.shared..]
  }

  /** The records one after the other. */
  function Records(entries: seq<Entry>, first: bool, previous: seq<Byte>): seq<Byte>
    requires Writable(entries, first, previous)
  {
    if entries == [] then []
    else Record(entries[0], first) + entries[0].filler + Records(entries[1..], false, entries[0].word)
  }

  /** Where each record starts, the first at `at`. */
  function Starts(entries: seq<Entry>, first: bool, previous: seq<Byte>, at: nat): seq<nat>
    requires Writable(entries, first, previous)
  {
    if entries == [] then []
    else [at] + Starts(entries[1..], false, entries[0].word, at + |Record(entries[0], first)| + |entries[0].filler|)
  }

  predicate Rising(offsets: seq<nat>, from: nat) {
    offsets == [] || (from <= offsets[0] < from + BITS_64 && Rising(offsets[1..], offsets[0]))
  }

  function Deltas(offsets: seq<nat>, from: nat): seq<Byte>
    requires Rising(offsets, from)
  {
    if offsets == [] then [] else WriteVarint(offsets[0] - from) + Deltas(offsets[1..], offsets[0])
  }

  /** The records' starts rise, and lie before their end. */
  lemma {:induction false} StartsRise(entries: seq<Entry>, first: bool, previous: seq<Byte>, at: nat, from: nat)
    requires Writable(entries, first, previous) && from <= at
    requires at + |Records(entries, first, previous)| < 65536
    ensures Rising(Starts(entries, first, previous, at), from)
  {
    hide Record;
    if entries != [] {
      StartsRise(entries[1..], false, entries[0].word, at + |Record(entries[0], first)| + |entries[0].filler|, at);
    }
  }

  /** The page: two bytes that are not read, the footer's offset, what stands
      before the first record, the records, the footer. */
  function WritePage(a: Byte, b: Byte, gap: seq<Byte>, entries: seq<Entry>): seq<Byte>
    requires Writable(entries, true, []) && 4 + |gap| + |Records(entries, true, [])| < 65536
  {
    StartsRise(entries, true, [], 4 + |gap|, 0);
    var records := Records(entries, true, []);
    var end := 4 + |gap| + |records|;
    [a, b, end / 256, end % 256] + gap + records + Deltas(Starts(entries, true, [], 4 + |gap|), 0)
  }

  lemma {:induction false} OffsetsRoundTrip(pre: seq<Byte>, offsets: seq<nat>, from: nat)
    requires Rising(offsets, from)
    ensures Offsets(pre + Deltas(offsets, from), |pre|, from) == Some(offsets)
    decreases |offsets|
  {
    hide ReadVarint, WriteVarint;
    var page := pre + Deltas(offsets, from);
    if offsets == [] {
      assert page == pre;
    } else {
      var bytes := WriteVarint(offsets[0] - from);
      var rest := Deltas(offsets[1..], offsets[0]);
      VarintRoundTrip(pre, offsets[0] - from, rest);
      assert page == pre + bytes + rest;
      assert page == (pre + bytes) + rest;
      OffsetsRoundTrip(pre + bytes, offsets[1..], offsets[0]);
      assert [offsets[0]] + offsets[1..] == offsets;
    }
  }

  /** One record read back in the middle of a page. */
  lemma RecordRoundTrip(pre: seq<Byte>, e: Entry, first: bool, previous: seq<Byte>, post: seq<Byte>)
    requires Writable([e], first, previous)
    ensures TermAt(pre + Record(e, first) + post, |pre|, first, previous) == Some(e.word)
  {
    hide ReadVarint, WriteVarint;
    var page := pre + Record(e, first) + post;
    var rest := e.word[e.shared..];
    var size := WriteVarint(|rest|);
    var share := if first then [] else WriteVarint(e.shared);
    VarintRoundTrip(pre + share, |rest|, rest + post);
    assert page == (pre + share) + size + (rest + post);
    if !first {
      VarintRoundTrip(pre, e.shared, size + rest + post);
      assert page == pre + share + (size + rest + post);
      assert previous[..e.shared] + rest == e.word;
    }
    var j := |pre| + |share| + |size|;
    SliceOfPage(pre + share + size, rest, post);
    assert page == (pre + share + size) + rest + post;
    if first {
      assert rest == e.word;
    } else {
      assert Slice(previous, 0, e.shared) == previous[..e.shared];
    }
  }

  lemma SliceOfPage(pre: seq<Byte>, mid: seq<Byte>, post: seq<Byte>)
    ensures Slice(pre + mid + post, |pre|, |pre| + |mid|) == mid
  {
    if mid != [] {
      assert (pre + mid + post)[|pre|..|pre| + |mid|] == mid;
    }
  }

  lemma {:induction false} TermsRoundTrip(pre: seq<Byte>, entries: seq<Entry>, first: bool, previous: seq<Byte>, post: seq<Byte>)
    requires Writable(entries, first, previous)
    ensures Terms(pre + Records(entries, first, previous) + post, Starts(entries, first, previous, |pre|), first, previous)
            == Some(Words(entries))
    decreases |entries|
  {
    hide Record, TermAt;
    if entries != [] {
      var e := entries[0];
      var record := Record(e, first);
      var rest := Records(entries[1..], false, e.word);
      var page := pre + Records(entries, first, previous) + post;
      var starts := Starts(entries, first, previous, |pre|);
      assert Writable([e], first, previous) by { assert [e][1..] == []; }
      RecordRoundTrip(pre, e, first, previous, e.filler + rest + post);
      assert page == pre + record + (e.filler + rest + post);
      var next := pre + record + e.filler;
      TermsRoundTrip(next, entries[1..], false, e.word, post);
      assert page == next + rest + post;
      assert starts[1..] == Starts(entries[1..], false, e.word, |next|);
    }
  }

  /** For every list of words, any true shared lengths and any bytes between
      the records: the reader returns exactly the words, in order. */
  lemma LeafRoundTrip(a: Byte, b: Byte, gap: seq<Byte>, entries: seq<Entry>)
    requires Writable(entries, true, []) && 4 + |gap| + |Records(entries, true, [])| < 65536
    ensures ReadPage(WritePage(a, b, gap, entries)) == Some(Words(entries))
  {
    hide Records, Starts, Deltas, Offsets, Terms;
    StartsRise(entries, true, [], 4 + |gap|, 0);
    var records := Records(entries, true, []);
    var starts := Starts(entries, true, [], 4 + |gap|);
    var end := 4 + |gap| + |records|;
    var head: seq<Byte> := [a, b, end / 256, end % 256] + gap;
    var footer := Deltas(starts, 0);
    var page := WritePage(a, b, gap, entries);
    assert page == head + records + footer;
    assert |head| == 4 + |gap|;
    assert Footer(page) == end;
    OffsetsRoundTrip(head + records, starts, 0);
    TermsRoundTrip(head, entries, true, [], footer);
  }
}
