/** The bounded in-memory log: a ring that keeps the longest recent stretch within its two
    bounds, and pages through it while it keeps moving. */
module LogRing {
  import opened LogEntries

  datatype Stored = Stored(entry: Entry, size: nat)

  // ---- What the ring should hold ---------------------------------------------------------

  /** The bytes of the first n entries. */
  function Bytes(h: seq<Stored>, n: nat): nat
    requires n <= |h|
  {
    if n == 0 then 0 else Bytes(h, n - 1) + h[n - 1].size
  }

  lemma {:induction false} BytesOfPrefix(h: seq<Stored>, more: seq<Stored>, n: nat)
    requires n <= |h| <= |more| && forall i :: 0 <= i < n ==> more[i] == h[i]
    ensures Bytes(more, n) == Bytes(h, n)
  {
    if n > 0 { BytesOfPrefix(h, more, n - 1); }
  }

  /** Entries start.. meet both bounds; the newest one is always kept. */
  ghost predicate Fits(h: seq<Stored>, start: nat, capacity: nat, bytes: int) {
    start <= |h| && |h| - start <= capacity && (|h| - start <= 1 || Bytes(h, |h|) - Bytes(h, start) <= bytes)
  }

  /** No older start meets them. */
  ghost predicate Longest(h: seq<Stored>, start: nat, capacity: nat, bytes: int) {
    Fits(h, start, capacity, bytes) && (start > 0 ==> !Fits(h, start - 1, capacity, bytes))
  }

  lemma {:induction false} BytesGrow(h: seq<Stored>, a: nat, b: nat)
    requires a <= b <= |h|
    ensures Bytes(h, a) <= Bytes(h, b)
  {
    if a < b { BytesGrow(h, a, b - 1); }
  }

  /** `Longest` is global: every longer stretch breaks a bound. */
  lemma NothingLongerFits(h: seq<Stored>, start: nat, older: nat, capacity: nat, bytes: int)
    requires Longest(h, start, capacity, bytes) && older < start
    ensures !Fits(h, older, capacity, bytes)
  {
    BytesGrow(h, older, start - 1);
  }

  /** After an append the old stretch without its oldest entries, down to the first point that
      fits, is the new longest one. */
  lemma AppendKeepsLongest(h: seq<Stored>, e: Stored, was: nat, start: nat, capacity: nat, bytes: int)
    requires Longest(h, was, capacity, bytes) && was <= start <= |h|
    requires Fits(h + [e], start, capacity, bytes)
    requires was < start ==> !Fits(h + [e], start - 1, capacity, bytes)
    ensures Longest(h + [e], start, capacity, bytes)
  {
    var more := h + [e];
    if was == start && start > 0 {
      BytesOfPrefix(h, more, |h|);
      BytesOfPrefix(h, more, start - 1);
    }
  }

  ghost predicate Bounded(h: seq<Stored>, bytes: int) {
    forall i :: 0 <= i < |h| ==> h[i].size <= bytes
  }

  /** IDs are handed out consecutively from 1. */
  ghost predicate Numbered(h: seq<Stored>) {
    forall i :: 0 <= i < |h| ==> h[i].entry.id == i + 1
  }

  // ---- The array -------------------------------------------------------------------------

  function RingIndex(head: nat, offset: nat, n: nat): nat {
    if head + offset < n then head + offset else head + offset - n
  }

  lemma Wrap(x: nat, n: nat)
    requires 0 < n && x < 2 * n
    ensures x % n == if x < n then x else x - n
  {
    if x >= n { assert (x - n) % n == x % n; }
  }

  /** The array holds history[start..], oldest first, from head on. */
  ghost predicate Holds(a: seq<Stored>, head: nat, h: seq<Stored>, start: nat) {
    && head < |a| && start <= |h| && |h| - start <= |a|
    && forall i: nat :: i < |h| - start ==> a[RingIndex(head, i, |a|)] == h[start + i]
  }

  lemma EvictHolds(a: seq<Stored>, head: nat, h: seq<Stored>, start: nat, cleared: Stored)
    requires Holds(a, head, h, start) && start < |h|
    ensures a[head] == h[start] && (head + 1) % |a| == RingIndex(head, 1, |a|)
    ensures Holds(a[head := cleared], RingIndex(head, 1, |a|), h, start + 1)
  {
    Wrap(head + 1, |a|);
    assert RingIndex(head, 0, |a|) == head;
    var next, after := RingIndex(head, 1, |a|), a[head := cleared];
    forall i: nat | i < |h| - start - 1 ensures after[RingIndex(next, i, |a|)] == h[start + 1 + i] {
      assert RingIndex(next, i, |a|) == RingIndex(head, i + 1, |a|);
    }
  }

  lemma StoreHolds(a: seq<Stored>, head: nat, h: seq<Stored>, start: nat, e: Stored)
    requires Holds(a, head, h, start) && |h| - start < |a|
    ensures (head + (|h| - start)) % |a| == RingIndex(head, |h| - start, |a|)
    ensures Holds(a[RingIndex(head, |h| - start, |a|) := e], head, h + [e], start)
  {
    Wrap(head + (|h| - start), |a|);
    var more, after := h + [e], a[RingIndex(head, |h| - start, |a|) := e];
    forall i: nat | i < |more| - start ensures after[RingIndex(head, i, |a|)] == more[start + i] {
      if i < |h| - start { assert a[RingIndex(head, i, |a|)] == h[start + i]; }
    }
  }

  // ---- The ring --------------------------------------------------------------------------

  class Ring {
    const entries: array<Stored>
    const limits: Limits
    var head: nat
    var count: nat
    var nextID: nat
    var totalBytes: int
    /** Everything ever appended; the ring holds history[start..]. */
    ghost var history: seq<Stored>
    ghost var start: nat

    ghost predicate Linked()
      reads this, entries
    {
      && Holds(entries[..], head, history, start)
      && count == |history| - start
      && totalBytes == Bytes(history, |history|) - Bytes(history, start)
    }

    ghost predicate Valid()
      reads this, entries
    {
      && Normal(limits) && Linked()
      && Longest(history, start, entries.Length, limits.totalBytes)
      && nextID == |history| && Numbered(history)
    }

    constructor (capacity: nat, limits: Limits)
      requires capacity > 0 && Normal(limits)
      ensures Valid() && fresh(entries) && entries.Length == capacity && history == [] && this.limits == limits
    {
      var nothing := Stored(Entry(0, 0, [], [], map[]), 0);
      this.limits := limits;
      entries := new Stored[capacity](_ => nothing);
      head, count, nextID, totalBytes, history, start := 0, 0, 0, 0, [], 0;
    }

    /** `evictOldest`. */
    method EvictOldest()
      requires Linked() && count > 0
      modifies this`head, this`count, this`totalBytes, this`start, entries
      ensures Linked() && count == old(count) - 1 && start == old(start) + 1
    {
      var nothing := Stored(Entry(0, 0, [], [], map[]), 0);
      EvictHolds(entries[..], head, history, start, nothing);
      totalBytes := totalBytes - entries[head].size;
      entries[head] := nothing;
      assert entries[..] == old(entries[..])[old(head) := nothing];
      head := (head + 1) % entries.Length;
      count := count - 1;
      start := start + 1;
    }

    /** The end of `append`. */
    method Store(e: Stored)
      requires Linked() && count < entries.Length
      modifies this`count, this`totalBytes, this`history, entries
      ensures Linked() && count == old(count) + 1 && history == old(history) + [e]
    {
      StoreHolds(entries[..], head, history, start, e);
      BytesOfPrefix(history, history + [e], |history|);
      BytesOfPrefix(history, history + [e], start);
      var index := (head + count) % entries.Length;
      entries[index] := e;
      assert entries[..] == old(entries[..])[index := e];
      count := count + 1;
      totalBytes := totalBytes + e.size;
      history := history + [e];
    }

    /** The eviction loop of `append`. */
    method MakeRoom(e: Stored)
      requires Linked() && entries.Length > 0
      modifies this`head, this`count, this`totalBytes, this`start, entries
      ensures Linked() && old(start) <= start && count < entries.Length
      ensures Fits(history + [e], start, entries.Length, limits.totalBytes)
      ensures old(start) < start ==> !Fits(history + [e], start - 1, entries.Length, limits.totalBytes)
    {
      WhenItFits(history, e, start, entries.Length, limits.totalBytes);
      while count > 0 && (count == entries.Length || totalBytes + e.size > limits.totalBytes)
        invariant Linked() && old(start) <= start
        invariant old(start) < start ==> !Fits(history + [e], start - 1, entries.Length, limits.totalBytes)
        invariant Fits(history + [e], start, entries.Length, limits.totalBytes) <==>
          count < entries.Length && (count == 0 || totalBytes + e.size <= limits.totalBytes)
        decreases count
      {
        EvictOldest();
        WhenItFits(history, e, start, entries.Length, limits.totalBytes);
      }
    }

    /** `append`: afterwards the ring holds exactly the longest newest stretch of everything
        ever appended. */
    method Append(entry: Entry, size: nat)
      requires Valid()
      modifies this, entries
      ensures Valid() && history == old(history) + [Stored(entry.(id := nextID), size)]
      ensures nextID == old(nextID) + 1 && count >= 1 && old(start) <= start
    {
      var e := Stored(entry.(id := nextID + 1), size);
      MakeRoom(e);
      AppendKeepsLongest(history, e, old(start), start, entries.Length, limits.totalBytes);
      Store(e);
      nextID := nextID + 1;
    }

    /** `Handle`: an entry is built within its limit, so the total bound holds without the
        exception for a single oversized entry. */
    method Handle(level: int, message: Text, source: Text, attrs: seq<Field>)
      returns (ghost built: Stored, ghost values: seq<Field>, ghost retained: seq<Field>)
      requires Valid() && Bounded(history, limits.entryBytes)
      modifies this, entries
      ensures Valid() && Bounded(history, limits.entryBytes) && 0 <= totalBytes <= limits.totalBytes
      ensures history == old(history) + [built.(entry := built.entry.(id := nextID))] && old(start) <= start
      ensures Gathered(values, attrs, limits.fieldKeyBytes) && built.entry.level == level
      ensures Built(built.entry, built.size, retained, message, source, values, limits)
      ensures HoldsAll(built.entry.fields, retained)
    {
      var entry, size;
      entry, size, values, retained := Record(level, message, source, attrs, limits);
      built := Stored(entry, size);
      AppendBounded(entry, size);
    }

    method AppendBounded(entry: Entry, size: nat)
      requires Valid() && Bounded(history, limits.entryBytes) && size <= limits.entryBytes
      modifies this, entries
      ensures Valid() && Bounded(history, limits.entryBytes) && 0 <= totalBytes <= limits.totalBytes
      ensures history == old(history) + [Stored(entry.(id := nextID), size)] && old(start) <= start
    {
      Append(entry, size);
      BytesGrow(history, start, |history|);
      if |history| - start == 1 {
        assert Bytes(history, |history|) == Bytes(history, start) + history[start].size;
      }
    }

    /** `List`, with the text filters as one predicate; an invalid level or category matches
        nothing. */
    method List(filter: Filter) returns (page: Page)
      requires Valid()
      ensures filter.valid ==> page == PageOf(Newest(history, count, filter.matches, filter.beforeID), filter,
        CountMatching(history, count, filter.matches))
      ensures !filter.valid ==> page == Page([], false, 0, 0)
    {
      page := Page([], false, 0, 0);
      var limit := PageLimit(filter.limit);
      var offset := if filter.offset < 0 then 0 else filter.offset;
      if !filter.valid {
        return;
      }
      var eligible, items, hasMore, total := 0, [], false, 0;
      for ringOffset := 0 to count
        invariant total == CountMatching(history, ringOffset, filter.matches)
        invariant eligible == |Newest(history, ringOffset, filter.matches, filter.beforeID)|
        invariant items == Cut(Newest(history, ringOffset, filter.matches, filter.beforeID), offset, limit)
        invariant hasMore <==> eligible > offset + limit
      {
        var candidate := NewestAt(ringOffset);
        ghost var all := Newest(history, ringOffset, filter.matches, filter.beforeID);
        eligible, items, hasMore, total := Consider(candidate, filter, offset, limit, eligible, items, hasMore, total, all);
      }
      var next := if hasMore && |items| > 0 then items[|items| - 1].id else 0;
      page := Page(items, hasMore, next, total);
    }

    /** The body of the loop in `List`. */
    static method Consider(
      candidate: Entry, filter: Filter, offset: nat, limit: nat, seen: nat, taken: seq<Entry>, overflowed: bool, matched: nat,
      ghost all: seq<Entry>
    ) returns (eligible: nat, items: seq<Entry>, hasMore: bool, total: nat)
      requires limit >= 1 && seen == |all| && taken == Cut(all, offset, limit) && (overflowed <==> seen > offset + limit)
      ensures total == matched + (if filter.matches(candidate) then 1 else 0)
      ensures var next := all + (if filter.matches(candidate) && Before(candidate, filter.beforeID) then [candidate] else []);
        eligible == |next| && items == Cut(next, offset, limit) && (hasMore <==> eligible > offset + limit)
    {
      eligible, items, hasMore, total := seen, taken, overflowed, matched;
      CutGrows(all, candidate, offset, limit);
      assert all + [] == all;
      if !filter.matches(candidate) {
        return;
      }
      total := total + 1;
      if filter.beforeID != 0 && candidate.id >= filter.beforeID {
        return;
      }
      if eligible < offset {
        eligible := eligible + 1;
        return;
      }
      eligible := eligible + 1;
      if |items| >= limit {
        hasMore := true;
        return;
      }
      items := items + [candidate];
    }

    /** The entry that is `ringOffset` steps older than the newest. */
    method NewestAt(ringOffset: nat) returns (candidate: Entry)
      requires Linked() && ringOffset < count
      ensures ringOffset < |history| && candidate == history[|history| - 1 - ringOffset].entry
    {
      Wrap(head + count - 1 - ringOffset, entries.Length);
      var index := (head + count - 1 - ringOffset) % entries.Length;
      assert index == RingIndex(head, count - 1 - ringOffset, entries.Length);
      assert entries[..][index] == history[start + (count - 1 - ringOffset)];
      candidate := entries[index].entry;
    }

    /** Whatever other goroutines log between two pages. */
    method LogMore()
      requires Valid()
      modifies this, entries
      ensures Valid() && old(history) <= history && old(start) <= start
    {
      var more :| 0 <= more;
      for n := 0 to more
        invariant Valid() && old(history) <= history && old(start) <= start
      {
        var entry: Entry, size: nat := *, *;
        Append(entry, size);
      }
    }

    /** One page of a walk, after others may have logged more. */
    method NextPage(matches: Entry -> bool, limit: int, before: nat, seen: seq<Entry>, ghost size: nat) returns (page: Page)
      requires Valid() && size <= |history|
      requires Seen(seen, history, matches, before) && CoveredDownTo(seen, history, start, matches, size, before)
      requires before == 0 ==> seen == []
      modifies this, entries
      ensures Valid() && old(history) <= history && old(start) <= start
      ensures Seen(seen + page.items, history, matches, page.nextBeforeID)
      ensures page.hasMore ==> 0 < page.nextBeforeID && (before == 0 || page.nextBeforeID < before)
      ensures CoveredDownTo(seen + page.items, history, start, matches, size, if page.hasMore then page.nextBeforeID else 1)
    {
      ghost var h, from := history, start;
      LogMore();
      HistoryGrows(h, history, from, start, seen, matches, before, size);
      page := ListNext(matches, limit, before, seen, size);
    }

    /** The page itself, in what the ring holds now. */
    method ListNext(matches: Entry -> bool, limit: int, before: nat, ghost seen: seq<Entry>, ghost size: nat) returns (page: Page)
      requires Valid() && size <= |history|
      requires Seen(seen, history, matches, before) && CoveredDownTo(seen, history, start, matches, size, before)
      requires before == 0 ==> seen == []
      ensures Seen(seen + page.items, history, matches, page.nextBeforeID)
      ensures page.hasMore ==> 0 < page.nextBeforeID && (before == 0 || page.nextBeforeID < before)
      ensures CoveredDownTo(seen + page.items, history, start, matches, size, if page.hasMore then page.nextBeforeID else 1)
    {
      var filter := Filter(true, matches, before, 0, limit);
      page := List(filter);
      PageIsFirst(Newest(history, count, matches, before), filter, page.total);
      PageExtends(history, start, count, matches, before, PageLimit(limit), seen, size);
    }

    /** Following `NextBeforeID` until `HasMore` is false, while others keep logging: every
        matching entry that was there at the start and is retained to the end is seen, nothing
        is seen twice, and everything comes newest first. */
    method Walk(matches: Entry -> bool, limit: int) returns (seen: seq<Entry>)
      requires Valid()
      modifies this, entries
      ensures Valid() && old(history) <= history && old(start) <= start
      ensures Descending(seen)
      ensures forall j :: 0 <= j < |seen| ==> matches(seen[j]) && 1 <= seen[j].id <= |history| && seen[j] == history[seen[j].id - 1].entry
      ensures forall i: nat :: start <= i && i < |old(history)| && matches(history[i].entry) ==> history[i].entry in seen
    {
      seen := [];
      var before, more := 0, true;
      while more
        invariant Valid() && old(history) <= history && old(start) <= start
        invariant Seen(seen, history, matches, before)
        invariant more && before == 0 ==> seen == []
        invariant if more then CoveredDownTo(seen, history, start, matches, |old(history)|, before)
          else CoveredDownTo(seen, history, start, matches, |old(history)|, 1)
        decreases more, before == 0, before
      {
        var page := NextPage(matches, limit, before, seen, |old(history)|);
        seen := seen + page.items;
        more := page.hasMore;
        before := page.nextBeforeID;
      }
    }
  }

  // ---- Pages -----------------------------------------------------------------------------

  const DEFAULT_LIST_LIMIT := 20
  const MAX_LIST_LIMIT := 1000

  datatype Filter = Filter(valid: bool, matches: Entry -> bool, beforeID: nat, offset: int, limit: int)

  datatype Page = Page(items: seq<Entry>, hasMore: bool, nextBeforeID: nat, total: nat)

  function PageLimit(limit: int): (n: nat)
    ensures 1 <= n <= MAX_LIST_LIMIT
  {
    if limit <= 0 then DEFAULT_LIST_LIMIT else if limit > MAX_LIST_LIMIT then MAX_LIST_LIMIT else limit
  }

  predicate Before(e: Entry, before: nat) {
    before == 0 || e.id < before
  }

  /** The matching entries before the cursor among the newest k, newest first. */
  function Newest(h: seq<Stored>, k: nat, matches: Entry -> bool, before: nat): seq<Entry>
    requires k <= |h|
  {
    if k == 0 then []
    else
      var e := h[|h| - k].entry;
      Newest(h, k - 1, matches, before) + (if matches(e) && Before(e, before) then [e] else [])
  }

  function CountMatching(h: seq<Stored>, k: nat, matches: Entry -> bool): nat
    requires k <= |h|
  {
    if k == 0 then 0 else CountMatching(h, k - 1, matches) + (if matches(h[|h| - k].entry) then 1 else 0)
  }

  function Cut(all: seq<Entry>, offset: nat, limit: nat): seq<Entry> {
    if |all| <= offset then [] else if |all| <= offset + limit then all[offset..] else all[offset..offset + limit]
  }

  lemma CutGrows(all: seq<Entry>, e: Entry, offset: nat, limit: nat)
    requires limit >= 1
    ensures Cut(all + [e], offset, limit) ==
      Cut(all, offset, limit) + (if |all| >= offset && |Cut(all, offset, limit)| < limit then [e] else [])
    ensures |all| >= offset ==> (|Cut(all, offset, limit)| < limit <==> |all| < offset + limit)
  {
  }

  /** One page: `limit` eligible entries after `offset`, and a cursor if more follow. */
  function PageOf(all: seq<Entry>, filter: Filter, total: nat): Page {
    var offset, limit := if filter.offset < 0 then 0 else filter.offset, PageLimit(filter.limit);
    var items := Cut(all, offset, limit);
    var hasMore := |all| > offset + limit;
    Page(items, hasMore, if hasMore && |items| > 0 then items[|items| - 1].id else 0, total)
  }

  /** A page of the wanted size, or whatever is left after the offset; more is announced exactly
      when something is left after it. Unusable sizes and offsets have their defaults. */
  lemma PageHolds(all: seq<Entry>, filter: Filter, total: nat)
    ensures var page := PageOf(all, filter, total);
      var offset := if filter.offset < 0 then 0 else filter.offset;
      var left := if |all| < offset then 0 else |all| - offset;
      && (1 <= filter.limit <= 1000 ==> |page.items| == if left < filter.limit then left else filter.limit)
      && (filter.limit < 1 ==> |page.items| == if left < 20 then left else 20)
      && (filter.limit > 1000 ==> |page.items| == if left < 1000 then left else 1000)
      && (forall j :: 0 <= j < |page.items| ==> page.items[j] == all[offset + j])
      && (page.hasMore <==> |page.items| < left)
      && page.nextBeforeID == (if page.hasMore then page.items[|page.items| - 1].id else 0)
  {
    var offset := if filter.offset < 0 then 0 else filter.offset;
    if |all| > offset { assert |all[offset..]| == |all| - offset; }
  }

  ghost predicate Descending(s: seq<Entry>) {
    forall i, j :: 0 <= i < j < |s| ==> s[i].id > s[j].id
  }

  ghost predicate FromHistory(e: Entry, h: seq<Stored>, matches: Entry -> bool) {
    matches(e) && 1 <= e.id <= |h| && e == h[e.id - 1].entry
  }

  /** What has been collected before the cursor `before` (0 at the start). */
  ghost predicate Seen(seen: seq<Entry>, h: seq<Stored>, matches: Entry -> bool, before: nat) {
    && Descending(seen)
    && forall j :: 0 <= j < |seen| ==> FromHistory(seen[j], h, matches) && seen[j].id >= before
  }

  /** Retained matching entries of the first `size` with IDs from `from` on (0: none) are in. */
  ghost predicate CoveredDownTo(seen: seq<Entry>, h: seq<Stored>, start: nat, matches: Entry -> bool, size: nat, from: nat) {
    from > 0 ==> forall i: nat :: start <= i && i < size && i < |h| && i + 1 >= from && matches(h[i].entry) ==> h[i].entry in seen
  }

  lemma {:induction false} NewestIsExact(h: seq<Stored>, k: nat, matches: Entry -> bool, before: nat)
    requires k <= |h| && Numbered(h)
    ensures var all := Newest(h, k, matches, before);
      && Descending(all)
      && (forall j :: 0 <= j < |all| ==>
        FromHistory(all[j], h, matches) && all[j].id > |h| - k && (before == 0 || all[j].id < before))
    ensures forall i: nat :: |h| - k <= i < |h| && matches(h[i].entry) && (before == 0 || i + 1 < before) ==>
      h[i].entry in Newest(h, k, matches, before)
  {
    if k > 0 {
      NewestIsExact(h, k - 1, matches, before);
    }
  }

  /** The page that starts at the cursor. */
  function FirstPage(all: seq<Entry>, limit: nat): seq<Entry> {
    if |all| <= limit then all else all[..limit]
  }

  lemma PageIsFirst(all: seq<Entry>, filter: Filter, total: nat)
    requires filter.offset == 0
    ensures var limit := PageLimit(filter.limit); var items := FirstPage(all, limit);
      PageOf(all, filter, total) == Page(items, |all| > limit, if |all| > limit then items[limit - 1].id else 0, total)
  {
    assert all[0..] == all;
  }

  lemma HistoryGrows(
    h: seq<Stored>, more: seq<Stored>, start: nat, later: nat, seen: seq<Entry>, matches: Entry -> bool, before: nat, size: nat
  )
    requires h <= more && start <= later && size <= |h|
    requires Seen(seen, h, matches, before) && CoveredDownTo(seen, h, start, matches, size, before)
    ensures Seen(seen, more, matches, before) && CoveredDownTo(seen, more, later, matches, size, before)
  {
    forall j | 0 <= j < |seen| ensures FromHistory(seen[j], more, matches) {
      assert FromHistory(seen[j], h, matches);
    }
  }

  lemma SeenGrows(seen: seq<Entry>, items: seq<Entry>, h: seq<Stored>, matches: Entry -> bool, before: nat, next: nat)
    requires Seen(seen, h, matches, before) && (before == 0 ==> seen == []) && (before > 0 ==> next <= before)
    requires Descending(items)
    requires forall j :: 0 <= j < |items| ==>
      FromHistory(items[j], h, matches) && items[j].id >= next && (before == 0 || items[j].id < before)
    ensures Seen(seen + items, h, matches, next)
  {
    var both := seen + items;
    forall i, j | 0 <= i < j < |both| ensures both[i].id > both[j].id {
      if i < |seen| <= j { assert FromHistory(seen[i], h, matches) && seen[i].id >= before; }
    }
    forall j | 0 <= j < |both| ensures FromHistory(both[j], h, matches) && both[j].id >= next {
    }
  }

  /** In a descending list the first page holds everything from its last ID on. */
  lemma PageHoldsFrom(all: seq<Entry>, limit: nat, e: Entry)
    requires Descending(all) && limit >= 1 && e in all
    requires |all| > limit ==> e.id >= all[limit - 1].id
    ensures e in FirstPage(all, limit)
  {
    var j :| 0 <= j < |all| && all[j] == e;
    if |all| > limit {
      assert forall k :: limit <= k < |all| ==> all[limit - 1].id > all[k].id;
      assert all[..limit][j] == e;
    }
  }

  lemma PageExtends(
    h: seq<Stored>, start: nat, count: nat, matches: Entry -> bool, before: nat, limit: nat, seen: seq<Entry>, size: nat
  )
    requires Numbered(h) && start <= |h| && count == |h| - start && size <= |h| && limit >= 1
    requires Seen(seen, h, matches, before) && CoveredDownTo(seen, h, start, matches, size, before)
    requires before == 0 ==> seen == []
    ensures var all := Newest(h, count, matches, before); var items := FirstPage(all, limit);
      && (|all| > limit ==> 0 < items[limit - 1].id && (before == 0 || items[limit - 1].id < before))
      && Seen(seen + items, h, matches, if |all| > limit then items[limit - 1].id else 0)
      && CoveredDownTo(seen + items, h, start, matches, size, if |all| > limit then items[limit - 1].id else 1)
  {
    var all := Newest(h, count, matches, before);
    NewestIsExact(h, count, matches, before);
    var items := FirstPage(all, limit);
    var next := if |all| > limit then items[limit - 1].id else 0;
    assert forall j :: 0 <= j < |items| ==> items[j] == all[j];
    SeenGrows(seen, items, h, matches, before, next);
    var from := if |all| > limit then next else 1;
    forall i: nat | start <= i && i < size && i < |h| && i + 1 >= from && matches(h[i].entry)
      ensures h[i].entry in seen + items
    {
      if before == 0 || i + 1 < before {
        assert h[i].entry in all;
        PageHoldsFrom(all, limit, h[i].entry);
      }
    }
  }

  /** Whether the stretch from start fits one more entry, in terms of the running total. */
  lemma WhenItFits(h: seq<Stored>, e: Stored, start: nat, capacity: nat, bytes: int)
    requires start <= |h|
    ensures Fits(h + [e], start, capacity, bytes) <==>
      |h| - start < capacity && (start == |h| || Bytes(h, |h|) - Bytes(h, start) + e.size <= bytes)
  {
    BytesOfPrefix(h, h + [e], |h|);
    BytesOfPrefix(h, h + [e], start);
  }
}
