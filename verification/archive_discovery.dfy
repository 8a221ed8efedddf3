/** Incremental UID discovery: how `fetchArchiveIncremental` advances an account cursor
    through a mailbox that changes between any two commands. */
module ArchiveDiscovery {
  import opened Results
  import opened Sorting
  import opened Mailboxes

  const MAX_SEQUENCE_FETCH_MESSAGES := 1025

  datatype Error =
    | InvalidLimit
    | CursorAboveMailbox
    | InvalidRange
    | RangeTooLong
    | CommandFailed
    | InvalidMessage
    | DuplicateSequence
    | DuplicateUID
    | UnstableView
    | UnexpectedUID
    | UIDBeyondUpper
    | TrailingSentinelChanged
    | BoundaryChanged
    | OnlySentinel
    | InvalidTail
    | InvalidBoundary
    | WindowChanged

  // ---- Response validation -------------------------------------------------------------

  /** A FETCH response that describes one contiguous, UID-ordered stretch of the mailbox. */
  ghost predicate IsSequenceView(raw: seq<Item>, first: nat, last: nat) {
    && |raw| == last - first + 1
    && (forall i :: 0 <= i < |raw| ==> first <= raw[i].sequence <= last && raw[i].uid != 0)
    && (forall i, j :: 0 <= i < j < |raw| ==> raw[i].sequence != raw[j].sequence)
    && (forall i, j :: 0 <= i < |raw| && 0 <= j < |raw| && raw[i].sequence < raw[j].sequence ==> raw[i].uid < raw[j].uid)
  }

  const BY_SEQUENCE := (m: Item) => m.sequence

  ghost predicate InOrder(s: seq<Item>, first: nat) {
    && (forall i :: 0 <= i < |s| ==> s[i].sequence == first + i)
    && (forall i, j :: 0 <= i < j < |s| ==> s[i].uid < s[j].uid)
  }

  lemma SortedViewInOrder(raw: seq<Item>, first: nat, last: nat)
    requires 1 <= first <= last
    ensures IsSequenceView(raw, first, last) ==> InOrder(SortByKey(BY_SEQUENCE, raw), first)
  {
    if IsSequenceView(raw, first, last) { ViewInOrder(raw, first, last); }
  }

  lemma ViewInOrder(raw: seq<Item>, first: nat, last: nat)
    requires 1 <= first <= last && IsSequenceView(raw, first, last)
    ensures InOrder(SortByKey(BY_SEQUENCE, raw), first)
  {
    var s := SortByKey(BY_SEQUENCE, raw);
    assert DistinctKeys(BY_SEQUENCE, raw);
    SortStrict(BY_SEQUENCE, raw);
    var keys: seq<int> := seq(|s|, i requires 0 <= i < |s| => s[i].sequence);
    forall i | 0 <= i < |s| ensures first <= s[i].sequence <= last && s[i] in raw {
      assert s[i] in s;
    }
    assert forall i, j :: 0 <= i < j < |keys| ==> keys[i] < keys[j] by {
      forall i, j | 0 <= i < j < |keys| ensures keys[i] < keys[j] {
        assert BY_SEQUENCE(s[i]) < BY_SEQUENCE(s[j]);
      }
    }
    forall i | 0 <= i < |s| ensures s[i].sequence == first + i {
      FillsWindow(keys, first, i);
    }
    forall i, j | 0 <= i < j < |s| ensures s[i].uid < s[j].uid {
      assert s[i] in raw && s[j] in raw;
    }
  }

  lemma InOrderIsView(raw: seq<Item>, s: seq<Item>, first: nat, last: nat)
    requires 1 <= first <= last && |raw| == |s| == last - first + 1
    requires forall x :: x in s <==> x in raw
    requires InOrder(s, first)
    requires forall i :: 0 <= i < |raw| ==> raw[i].uid != 0
    requires forall i, j :: 0 <= i < j < |raw| ==> raw[i].sequence != raw[j].sequence
    ensures IsSequenceView(raw, first, last)
  {
    forall i | 0 <= i < |raw| ensures first <= raw[i].sequence <= last && s[raw[i].sequence - first] == raw[i] {
      assert raw[i] in s;
    }
  }

  /** What the receiving loop has established about a response it did not reject. */
  ghost predicate Collected(raw: seq<Item>, first: nat, last: nat) {
    && (forall i :: 0 <= i < |raw| ==> first <= raw[i].sequence <= last && raw[i].uid != 0)
    && (forall i, j :: 0 <= i < j < |raw| ==> raw[i].sequence != raw[j].sequence)
  }

  /** The receiving loop of `fetchArchiveSequenceRange`. */
  method CollectMessages(raw: seq<Item>, first: nat, last: nat) returns (r: Result<seq<Item>, Error>)
    ensures r.Success? ==> r.value == raw && Collected(raw, first, last)
    ensures r.Failure? ==> !IsSequenceView(raw, first, last)
  {
    var messages: seq<Item> := [];
    var seenSequences: set<nat>, seenUIDs: set<nat> := {}, {};
    for n := 0 to |raw|
      invariant messages == raw[..n]
      invariant Collected(raw[..n], first, last)
      invariant seenSequences == set i | 0 <= i < n :: raw[i].sequence
      invariant seenUIDs == set i | 0 <= i < n :: raw[i].uid
    {
      var item := raw[n];
      if item.sequence < first || item.sequence > last || item.uid == 0 {
        return Failure(InvalidMessage);
      }
      if item.sequence in seenSequences {
        return Failure(DuplicateSequence);
      }
      if item.uid in seenUIDs {
        return Failure(DuplicateUID);
      }
      assert raw[..n + 1] == raw[..n] + [item];
      seenSequences := seenSequences + {item.sequence};
      seenUIDs := seenUIDs + {item.uid};
      messages := messages + [item];
    }
    assert raw[..|raw|] == raw;
    return Success(messages);
  }

  /** Consecutive sequence numbers from `first`, with increasing UIDs. */
  method CheckOrder(sorted: seq<Item>, first: nat) returns (stable: bool)
    ensures stable <==> InOrder(sorted, first)
  {
    for n := 0 to |sorted|
      invariant forall i :: 0 <= i < n ==> sorted[i].sequence == first + i
      invariant forall i, j :: 0 <= i < j < n ==> sorted[i].uid < sorted[j].uid
    {
      if sorted[n].sequence != first + n || (n > 0 && sorted[n].uid <= sorted[n - 1].uid) {
        return false;
      }
    }
    return true;
  }

  /** The checks of `fetchArchiveSequenceRange`, for any response whatever. */
  method ValidateSequenceRange(raw: seq<Item>, first: nat, last: nat) returns (r: Result<seq<Item>, Error>)
    requires 1 <= first <= last
    ensures r.Success? <==> IsSequenceView(raw, first, last)
    ensures r.Success? ==>
      |r.value| == last - first + 1 && InOrder(r.value, first) && multiset(r.value) == multiset(raw)
  {
    var collected := CollectMessages(raw, first, last);
    if collected.Failure? {
      return collected;
    }
    var sorted := SortByKey(BY_SEQUENCE, collected.value);
    SortedViewInOrder(raw, first, last);
    if |sorted| != last - first + 1 {
      return Failure(UnstableView);
    }
    var stable := CheckOrder(sorted, first);
    if !stable {
      return Failure(UnstableView);
    }
    InOrderIsView(raw, sorted, first, last);
    return Success(sorted);
  }

  lemma ViewIsValid(uids: seq<nat>, first: nat, last: nat)
    requires Ascending(uids) && (forall k :: 0 <= k < |uids| ==> 0 < uids[k]) && 1 <= first <= last <= |uids|
    ensures IsSequenceView(View(uids, first, last), first, last)
  {
    Pairs(uids);
  }

  lemma HonestViewIsView(raw: seq<Item>, s: seq<Item>, uids: seq<nat>, first: nat, last: nat)
    requires 1 <= first <= last && Honest(raw, uids, first, last)
    requires |s| == last - first + 1 && InOrder(s, first) && multiset(s) == multiset(raw)
    ensures last <= |uids| && s == View(uids, first, last)
  {
    forall i | 0 <= i < |s| ensures s[i].sequence <= |uids| && s[i].uid == uids[s[i].sequence - 1] {
      assert s[i] in multiset(s);
      assert s[i] in raw;
    }
    assert s[|s| - 1].sequence == last;
  }

  method FetchArchiveSequenceRange(m: Mailbox, first: nat, last: nat) returns (r: Result<seq<Item>, Error>)
    requires m.Valid()
    modifies m
    ensures m.Since(old(m.uids), old(m.uidNext))
    ensures r.Success? ==> 1 <= first <= last <= |m.uids| && r.value == View(m.uids, first, last)
    ensures m.steady && 1 <= first <= last <= |m.uids| && last - first < MAX_SEQUENCE_FETCH_MESSAGES ==> r.Success?
  {
    if first == 0 || last < first {
      return Failure(InvalidRange);
    }
    if last - first + 1 > MAX_SEQUENCE_FETCH_MESSAGES {
      return Failure(RangeTooLong);
    }
    var failed, raw := m.Fetch(first, last);
    if failed {
      return Failure(CommandFailed);
    }
    r := ValidateSequenceRange(raw, first, last);
    if r.Success? {
      HonestViewIsView(raw, r.value, m.uids, first, last);
    } else if m.steady && last <= |m.uids| {
      ViewIsValid(m.uids, first, last);
      assert false;
    }
  }

  /** One sequence number, answered by exactly one UID. */
  method FetchUIDAt(m: Mailbox, sequence: nat) returns (r: Result<nat, Error>)
    requires m.Valid()
    modifies m
    ensures m.Since(old(m.uids), old(m.uidNext))
    ensures r.Success? ==> 1 <= sequence <= |m.uids| && r.value == m.uids[sequence - 1]
    ensures m.steady && 1 <= sequence <= |m.uids| ==> r.Success?
  {
    var range := FetchArchiveSequenceRange(m, sequence, sequence);
    if range.Failure? {
      return Failure(range.error);
    }
    return Success(range.value[0].uid);
  }

  /** `validateArchiveUIDSearch`: accepts exactly the duplicate-free lists inside (lo, hi]. */
  method ValidateArchiveUIDSearch(discovered: seq<nat>, lo: nat, hi: nat) returns (r: Result<seq<nat>, Error>)
    ensures r.Success? <==>
      (forall i :: 0 <= i < |discovered| ==> lo < discovered[i] <= hi) &&
      (forall i, j :: 0 <= i < j < |discovered| ==> discovered[i] != discovered[j])
    ensures r.Success? ==> Ascending(r.value) && forall u :: u in r.value <==> u in discovered
  {
    var uids: seq<nat> := [];
    var seen: set<nat> := {};
    for n := 0 to |discovered|
      invariant uids == discovered[..n]
      invariant forall x :: x in seen <==> x in discovered[..n]
      invariant forall i :: 0 <= i < n ==> lo < discovered[i] <= hi
      invariant forall i, j :: 0 <= i < j < n ==> discovered[i] != discovered[j]
    {
      var uid := discovered[n];
      if uid <= lo || uid > hi {
        return Failure(UnexpectedUID);
      }
      if uid in seen {
        return Failure(DuplicateUID);
      }
      assert discovered[..n + 1] == discovered[..n] + [uid];
      seen := seen + {uid};
      uids := uids + [uid];
    }
    assert uids == discovered;
    var byValue := (u: nat) => u as int;
    SortStrict(byValue, uids);
    var sorted := SortByKey(byValue, uids);
    forall i, j | 0 <= i < j < |sorted| ensures sorted[i] < sorted[j] {
      assert byValue(sorted[i]) < byValue(sorted[j]);
    }
    return Success(sorted);
  }

  // ---- Discovery -----------------------------------------------------------------------

  /** What SELECT reported: the messages present, all of them at or below the upper UID. */
  ghost predicate Selected(selected: seq<nat>, numMessages: nat, upperUID: nat) {
    && |selected| == numMessages
    && Ascending(selected)
    && upperUID + 1 < UID_LIMIT
    && forall k :: 0 <= k < |selected| ==> 0 < selected[k] <= upperUID
  }

  lemma OldPosition(selected: seq<nat>, uids: seq<nat>, numMessages: nat, upperUID: nat, k: nat)
    requires Selected(selected, numMessages, upperUID) && Evolves(selected, uids, upperUID + 1)
    requires k < |uids| && uids[k] <= upperUID
    ensures k < numMessages && selected[k] <= uids[k]
  {
    ExpungeShifts(selected, uids, upperUID + 1, k);
  }

  /** `findArchiveFirstSequenceAfterUID`. Expunges between probes can only make the answer
      too low: every message of the SELECT view before it is at or below the cursor. */
  method FindFirstSequenceAfterUID(
    m: Mailbox, numMessages: nat, lastUID: nat, upperUID: nat, ghost selected: seq<nat>
  ) returns (r: Result<nat, Error>)
    requires m.Since(selected, upperUID + 1) && Selected(selected, numMessages, upperUID)
    requires lastUID < upperUID
    modifies m
    ensures m.Since(selected, upperUID + 1)
    ensures r.Success? ==> 1 <= r.value <= numMessages + 1
    ensures r.Success? && r.value > 1 ==> selected[r.value - 2] <= lastUID
    ensures m.steady ==> r.Success? && (r.value <= numMessages ==> selected[r.value - 1] > lastUID)
  {
    if numMessages == 0 {
      return Success(1);
    }
    var low, high := 1, numMessages + 1;
    var guess := if lastUID + 1 > numMessages then numMessages else lastUID + 1;
    var probe := ProbeSequence(m, guess, numMessages, upperUID, selected);
    if probe.Failure? {
      return Failure(probe.error);
    }
    if probe.value == lastUID + 1 {
      assert guess == 1 || InOrderAt(selected, guess - 2, guess - 1);
      return Success(guess);
    }
    if probe.value <= lastUID {
      low := guess + 1;
    } else {
      high := guess;
    }
    while low < high
      invariant 1 <= low <= high <= numMessages + 1
      invariant m.Since(selected, upperUID + 1)
      invariant low > 1 ==> selected[low - 2] <= lastUID
      invariant m.steady && high <= numMessages ==> selected[high - 1] > lastUID
    {
      var middle := low + (high - low) / 2;
      probe := ProbeSequence(m, middle, numMessages, upperUID, selected);
      if probe.Failure? {
        return Failure(probe.error);
      }
      if probe.value <= lastUID {
        low := middle + 1;
      } else {
        high := middle;
      }
    }
    return Success(low);
  }

  method ProbeSequence(
    m: Mailbox, sequence: nat, numMessages: nat, upperUID: nat, ghost selected: seq<nat>
  ) returns (r: Result<nat, Error>)
    requires m.Since(selected, upperUID + 1) && Selected(selected, numMessages, upperUID)
    requires 1 <= sequence <= numMessages
    modifies m
    ensures m.Since(selected, upperUID + 1)
    ensures r.Success? ==> selected[sequence - 1] <= r.value <= upperUID
    ensures m.steady ==> r.Success? && r.value == selected[sequence - 1]
  {
    ghost var was, next := m.uids, m.uidNext;
    r := FetchUIDAt(m, sequence);
    m.SinceTrans(selected, upperUID + 1, was, next);
    if r.Success? {
      if r.value > upperUID {
        return Failure(UIDBeyondUpper);
      }
      OldPosition(selected, m.uids, numMessages, upperUID, sequence - 1);
    }
  }

  datatype Discovery = Discovery(uids: seq<nat>, hasMore: bool, processedThrough: nat)

  /** The batch a mailbox must yield from which nothing is expunged. */
  function NextBatch(s: seq<nat>, lastUID: nat, upperUID: nat, limit: nat): (d: Discovery)
    requires 1 <= limit
  {
    var pending := Interval(s, lastUID, upperUID);
    if |pending| <= limit then Discovery(pending, false, upperUID) else Discovery(pending[..limit], true, pending[limit - 1])
  }

  /** Mailbox contents the call passed through: at the batch FETCH, at the trailing recheck,
      and the position of the leading sentinel (0 when no window was fetched). */
  datatype Witness = Witness(view: seq<nat>, recheck: seq<nat>, anchor: nat)

  /** The last sequence number of the window that starts at `first`. */
  function RangeLast(numMessages: nat, first: nat, limit: int): (r: nat)
    requires 1 <= first <= numMessages && 1 <= limit
    ensures first <= r <= numMessages
    ensures r < numMessages ==> r == first + limit - 1
  {
    if limit < numMessages - first + 1 then first + limit - 1 else numMessages
  }

  /** The messages first..rangeLast of a view all lie in (lastUID, upperUID], and a message
      before them is at or below the cursor. */
  ghost predicate InWindow(view: seq<nat>, first: nat, rangeLast: nat, lastUID: nat, upperUID: nat) {
    && 1 <= first <= rangeLast <= |view|
    && (first > 1 ==> view[first - 2] <= lastUID)
    && forall k :: first - 1 <= k < rangeLast ==> lastUID < view[k] <= upperUID
  }

  function WindowDiscovery(view: seq<nat>, numMessages: nat, first: nat, rangeLast: nat, upperUID: nat): Discovery
    requires 1 <= first <= rangeLast <= |view|
  {
    var hasMore := rangeLast < numMessages;
    Discovery(view[first - 1..rangeLast], hasMore, if hasMore then view[rangeLast - 1] else upperUID)
  }

  lemma WindowIsInterval(
    selected: seq<nat>, view: seq<nat>, upperUID: nat, lastUID: nat, first: nat, rangeLast: nat
  )
    requires Selected(selected, |selected|, upperUID) && Evolves(selected, view, upperUID + 1)
    requires rangeLast <= |selected| && InWindow(view, first, rangeLast, lastUID, upperUID)
    ensures var d := WindowDiscovery(view, |selected|, first, rangeLast, upperUID);
      d.uids == Interval(view, lastUID, d.processedThrough)
  {
    var through := if rangeLast < |selected| then view[rangeLast - 1] else upperUID;
    if rangeLast < |view| { BeyondWindow(selected, view, upperUID, rangeLast); }
    assert view[rangeLast - 1] <= through && lastUID < view[first - 1];
    IntervalIsSlice(view, first - 1, rangeLast, lastUID, through);
  }

  lemma BeyondWindow(selected: seq<nat>, view: seq<nat>, upperUID: nat, rangeLast: nat)
    requires Selected(selected, |selected|, upperUID) && Evolves(selected, view, upperUID + 1)
    requires 1 <= rangeLast <= |selected| && rangeLast < |view|
    ensures view[rangeLast - 1] < view[rangeLast] && (rangeLast == |selected| ==> upperUID < view[rangeLast])
  {
    assert InOrderAt(view, rangeLast - 1, rangeLast);
    if rangeLast == |selected| && view[rangeLast] <= upperUID {
      OldPosition(selected, view, |selected|, upperUID, rangeLast);
    }
  }

  lemma SteadyWindow(selected: seq<nat>, upperUID: nat, lastUID: nat, first: nat, limit: nat)
    requires Selected(selected, |selected|, upperUID)
    requires 1 <= first <= |selected| && limit >= 1
    requires first > 1 ==> selected[first - 2] <= lastUID
    requires selected[first - 1] > lastUID
    ensures NextBatch(selected, lastUID, upperUID, limit)
      == WindowDiscovery(selected, |selected|, first, RangeLast(|selected|, first, limit), upperUID)
    ensures InWindow(selected, first, RangeLast(|selected|, first, limit), lastUID, upperUID)
  {
    var rangeLast := RangeLast(|selected|, first, limit);
    forall k | first - 1 <= k < rangeLast ensures lastUID < selected[k] <= upperUID {
      assert k == first - 1 || InOrderAt(selected, first - 1, k);
    }
    IntervalIsSlice(selected, first - 1, |selected|, lastUID, upperUID);
    SuffixCut(selected, first - 1, rangeLast);
  }

  /** The same window of any view that new mail has extended. */
  lemma ExtendedWindow(selected: seq<nat>, view: seq<nat>, upperUID: nat, lastUID: nat, first: nat, rangeLast: nat)
    requires selected <= view && 1 <= first <= rangeLast <= |selected|
    requires InWindow(selected, first, rangeLast, lastUID, upperUID)
    ensures InWindow(view, first, rangeLast, lastUID, upperUID)
    ensures WindowDiscovery(view, |selected|, first, rangeLast, upperUID)
      == WindowDiscovery(selected, |selected|, first, rangeLast, upperUID)
  {
    assert view[first - 1..rangeLast] == selected[first - 1..rangeLast];
  }

  lemma SuffixCut(s: seq<nat>, from: nat, to: nat)
    requires from <= to <= |s|
    ensures s[from..|s|][..to - from] == s[from..to] && |s[from..|s|]| == |s| - from
    ensures from < to ==> s[from..|s|][to - from - 1] == s[to - 1]
  {
  }

  /** The batch is exactly the interval (lastUID, processedThrough] of one view the mailbox
      had during the call, `now` being the mailbox on return. */
  ghost predicate ExactBatch(d: Discovery, view: seq<nat>, selected: seq<nat>, now: seq<nat>, lastUID: nat, upperUID: nat) {
    && Ascending(d.uids)
    && Evolves(selected, view, upperUID + 1) && Evolves(view, now, upperUID + 1)
    && d.uids == Interval(view, lastUID, d.processedThrough)
    && d.processedThrough <= upperUID && (lastUID < upperUID ==> lastUID < d.processedThrough)
    && (!d.hasMore ==> d.processedThrough == upperUID)
  }

  /** A partial batch is full, ends at its last UID, and the trailing sentinel shows that none
      of it had been expunged by the recheck. */
  ghost predicate FullBatch(d: Discovery, recheck: seq<nat>, now: seq<nat>, lastUID: nat, upperUID: nat, limit: int) {
    && |d.uids| == limit >= 1 && d.processedThrough == d.uids[limit - 1]
    && Evolves(recheck, now, upperUID + 1) && d.uids == Interval(recheck, lastUID, d.processedThrough)
  }

  /** The leading sentinel: nothing up to it has been expunged since the batch was read. */
  ghost predicate AnchorHeld(w: Witness, now: seq<nat>) {
    SamePrefix(now, w.view, w.anchor)
  }

  /** What a successful discovery promises. */
  ghost predicate SafeBatch(
    d: Discovery, w: Witness, selected: seq<nat>, now: seq<nat>, lastUID: nat, upperUID: nat, limit: int
  ) {
    && ExactBatch(d, w.view, selected, now, lastUID, upperUID)
    && (d.hasMore ==> FullBatch(d, w.recheck, now, lastUID, upperUID, limit))
    && AnchorHeld(w, now)
  }

  /** Nothing of the interval is skipped and nothing is made up. */
  lemma BatchIsComplete(d: Discovery, view: seq<nat>, selected: seq<nat>, now: seq<nat>, lastUID: nat, upperUID: nat)
    requires ExactBatch(d, view, selected, now, lastUID, upperUID)
    ensures forall u :: u in now && lastUID < u <= d.processedThrough ==> u in d.uids
    ensures forall u :: u in d.uids ==> u in selected && lastUID < u <= d.processedThrough
  {
    IntervalMembers(view, lastUID, d.processedThrough);
    forall u | u in now && lastUID < u <= d.processedThrough ensures u in d.uids {
      OldElement(view, now, upperUID + 1, u);
    }
    forall u | u in d.uids ensures u in selected {
      OldElement(selected, view, upperUID + 1, u);
    }
  }

  lemma NothingNew(selected: seq<nat>, now: seq<nat>, lastUID: nat, upperUID: nat, limit: int)
    requires Selected(selected, |selected|, upperUID) && Evolves(selected, now, upperUID + 1)
    requires lastUID <= upperUID && 1 <= limit
    requires forall k :: 0 <= k < |selected| ==> selected[k] <= lastUID
    ensures Interval(now, lastUID, upperUID) == []
    ensures SafeBatch(Discovery([], false, upperUID), Witness(now, now, 0), selected, now, lastUID, upperUID, limit)
    ensures NextBatch(selected, lastUID, upperUID, limit) == Discovery([], false, upperUID)
  {
    forall k | 0 <= k < |now| ensures !(lastUID < now[k] <= upperUID) {
      if now[k] <= upperUID { OldElement(selected, now, upperUID + 1, now[k]); }
    }
    IntervalEmpty(now, lastUID, upperUID);
    IntervalEmpty(selected, lastUID, upperUID);
    EvolvesRefl(now, upperUID + 1);
  }

  /** `discoverArchiveUIDs`. Whatever is expunged or delivered between its commands, the UIDs
      it returns are exactly those of (lastUID, processedThrough] at one moment of the call. */
  method DiscoverArchiveUIDs(
    m: Mailbox, numMessages: nat, lastUID: nat, upperUID: nat, limit: int, ghost selected: seq<nat>
  ) returns (r: Result<Discovery, Error>, ghost w: Witness)
    requires m.Since(selected, upperUID + 1) && Selected(selected, numMessages, upperUID)
    modifies m
    ensures m.Since(selected, upperUID + 1)
    ensures limit < 1 || lastUID > upperUID ==> r.Failure?
    ensures r.Success? ==> SafeBatch(r.value, w, selected, m.uids, lastUID, upperUID, limit)
    ensures m.steady && 1 <= limit < MAX_SEQUENCE_FETCH_MESSAGES && lastUID <= upperUID ==>
      r.Success? && r.value == NextBatch(selected, lastUID, upperUID, limit)
  {
    w := Witness(m.uids, m.uids, 0);
    if limit < 1 {
      return Failure(InvalidLimit), w;
    }
    if lastUID > upperUID {
      return Failure(CursorAboveMailbox), w;
    }
    if lastUID == upperUID || numMessages == 0 {
      NothingNew(selected, m.uids, lastUID, upperUID, limit);
      return Success(Discovery([], false, upperUID)), w;
    }
    if upperUID - lastUID <= limit {
      r, w := DiscoverBySearch(m, numMessages, lastUID, upperUID, limit, selected);
      return;
    }
    var found := FindFirstSequenceAfterUID(m, numMessages, lastUID, upperUID, selected);
    if found.Failure? {
      return Failure(found.error), w;
    }
    w := Witness(m.uids, m.uids, 0);
    if found.value > numMessages {
      Pairs(selected);
      NothingNew(selected, m.uids, lastUID, upperUID, limit);
      return Success(Discovery([], false, upperUID)), w;
    }
    r, w := DiscoverWindow(m, numMessages, lastUID, upperUID, limit, found.value, selected);
  }

  lemma {:induction false} IntervalLength(s: seq<nat>, lo: nat, hi: nat)
    requires Ascending(s) && lo <= hi
    requires forall k :: 0 <= k < |s| ==> lo < s[k] <= hi
    ensures |s| <= hi - lo
  {
    Pairs(s);
    if s != [] {
      IntervalLength(s[..|s| - 1], lo, s[|s| - 1] - 1);
    }
  }

  /** New mail is above the interval. */
  lemma ArrivalsAreBeyond(selected: seq<nat>, now: seq<nat>, lastUID: nat, upperUID: nat)
    requires Ascending(selected) && Evolves(selected, now, upperUID + 1) && selected <= now
    ensures Interval(now, lastUID, upperUID) == Interval(selected, lastUID, upperUID)
  {
    IntervalMembers(now, lastUID, upperUID);
    IntervalMembers(selected, lastUID, upperUID);
    IntervalAscending(now, lastUID, upperUID);
    IntervalAscending(selected, lastUID, upperUID);
    forall u ensures u in Interval(now, lastUID, upperUID) <==> u in Interval(selected, lastUID, upperUID) {
      if u in now && u <= upperUID { OldElement(selected, now, upperUID + 1, u); }
    }
    AscendingUnique(Interval(now, lastUID, upperUID), Interval(selected, lastUID, upperUID));
  }

  /** The branch for a small numeric interval: one SEARCH. */
  method DiscoverBySearch(
    m: Mailbox, numMessages: nat, lastUID: nat, upperUID: nat, limit: int, ghost selected: seq<nat>
  ) returns (r: Result<Discovery, Error>, ghost w: Witness)
    requires m.Since(selected, upperUID + 1) && Selected(selected, numMessages, upperUID)
    requires lastUID < upperUID && upperUID - lastUID <= limit
    modifies m
    ensures m.Since(selected, upperUID + 1)
    ensures r.Success? ==> SafeBatch(r.value, w, selected, m.uids, lastUID, upperUID, limit)
    ensures m.steady ==> r.Success? && r.value == NextBatch(selected, lastUID, upperUID, limit)
  {
    ghost var was, next := m.uids, m.uidNext;
    var failed, found := m.UIDSearch(lastUID, upperUID);
    m.SinceTrans(selected, upperUID + 1, was, next);
    EvolvesRefl(m.uids, upperUID + 1);
    w := Witness(m.uids, m.uids, 0);
    if failed {
      return Failure(CommandFailed), w;
    }
    IntervalAscending(m.uids, lastUID, upperUID);
    IntervalMembers(m.uids, lastUID, upperUID);
    ghost var live := Interval(m.uids, lastUID, upperUID);
    forall k | 0 <= k < |live| ensures lastUID < live[k] <= upperUID { assert live[k] in live; }
    IntervalLength(live, lastUID, upperUID);
    if m.steady {
      Pairs(live);
      ArrivalsAreBeyond(selected, m.uids, lastUID, upperUID);
    }
    var checked := ValidateArchiveUIDSearch(found, lastUID, upperUID);
    if checked.Failure? {
      return Failure(checked.error), w;
    }
    AscendingUnique(checked.value, live);
    return Success(Discovery(checked.value, false, upperUID)), w;
  }

  /** The trailing sentinel: the message at position k is the same before and after the batch
      was read, so nothing at or before it was expunged from the batch read on. */
  lemma TrailingStable(before: seq<nat>, view: seq<nat>, recheck: seq<nat>, next: nat, viewNext: nat, k: nat)
    requires Ascending(before) && Evolves(before, view, next) && Evolves(view, recheck, viewNext) && next <= viewNext
    requires k < |before| && k < |recheck| && before[k] == recheck[k] < next
    ensures SamePrefix(recheck, view, k + 1)
  {
    ExpungeShifts(view, recheck, viewNext, k);
    ExpungeShifts(before, view, next, k);
    StablePrefix(view, recheck, viewNext, k);
  }

  ghost predicate AllInside(batch: seq<Item>, lastUID: nat, upperUID: nat) {
    forall k :: 0 <= k < |batch| ==> lastUID < batch[k].uid <= upperUID
  }

  /** The loop that strips the flags and checks every UID of the batch. */
  method CollectUIDs(batch: seq<Item>, lastUID: nat, upperUID: nat) returns (r: Result<seq<nat>, Error>)
    ensures r.Success? <==> AllInside(batch, lastUID, upperUID)
    ensures r.Success? ==> |r.value| == |batch| && forall k :: 0 <= k < |batch| ==> r.value[k] == batch[k].uid
  {
    var uids: seq<nat> := [];
    for n := 0 to |batch|
      invariant |uids| == n && forall k :: 0 <= k < n ==> uids[k] == batch[k].uid
      invariant forall k :: 0 <= k < n ==> lastUID < batch[k].uid <= upperUID
    {
      if batch[n].uid <= lastUID || batch[n].uid > upperUID {
        return Failure(UnexpectedUID);
      }
      uids := uids + [batch[n].uid];
    }
    return Success(uids);
  }

  /** The fetched items carry the UIDs of positions first..rangeLast, after the boundary
      sentinel if there is one. */
  ghost predicate HoldsWindow(items: seq<Item>, view: seq<nat>, first: nat, rangeLast: nat) {
    var skip := if first > 1 then 1 else 0;
    && 1 <= first <= rangeLast <= |view|
    && |items| == rangeLast - first + 1 + skip
    && (forall j :: skip <= j < |items| ==> items[j].uid == view[first - 1 + j - skip])
  }

  lemma ViewHoldsWindow(view: seq<nat>, first: nat, rangeLast: nat)
    requires 1 <= first <= rangeLast <= |view|
    ensures HoldsWindow(View(view, if first > 1 then first - 1 else first, rangeLast), view, first, rangeLast)
  {
  }

  /** The window without the boundary sentinel. */
  function WithoutSentinel(items: seq<Item>, first: nat): seq<Item> {
    if first > 1 && items != [] then items[1..] else items
  }

  ghost predicate IsBatch(batch: seq<Item>, view: seq<nat>, first: nat, rangeLast: nat) {
    && 1 <= first <= rangeLast <= |view| && |batch| == rangeLast - first + 1
    && forall j :: 0 <= j < |batch| ==> batch[j].uid == view[first - 1 + j]
  }

  lemma WindowIsBatch(items: seq<Item>, view: seq<nat>, first: nat, rangeLast: nat)
    requires 1 <= first <= rangeLast <= |view| && HoldsWindow(items, view, first, rangeLast)
    ensures IsBatch(WithoutSentinel(items, first), view, first, rangeLast)
  {
    var batch, skip := WithoutSentinel(items, first), if first > 1 then 1 else 0;
    forall j | 0 <= j < |batch| ensures batch[j].uid == view[first - 1 + j] {
      assert batch[j] == items[j + skip];
    }
  }

  lemma InsideIsInWindow(batch: seq<Item>, view: seq<nat>, first: nat, rangeLast: nat, lastUID: nat, upperUID: nat)
    requires IsBatch(batch, view, first, rangeLast) && (first > 1 ==> view[first - 2] <= lastUID)
    ensures AllInside(batch, lastUID, upperUID) <==> InWindow(view, first, rangeLast, lastUID, upperUID)
  {
    if AllInside(batch, lastUID, upperUID) {
      forall k | first - 1 <= k < rangeLast ensures lastUID < view[k] <= upperUID {
        assert batch[k - first + 1].uid == view[k];
      }
    }
  }

  lemma BatchIsWindow(
    batch: seq<Item>, uids: seq<nat>, view: seq<nat>, numMessages: nat, first: nat, rangeLast: nat, upperUID: nat
  )
    requires IsBatch(batch, view, first, rangeLast)
    requires |uids| == |batch| && forall j :: 0 <= j < |batch| ==> uids[j] == batch[j].uid
    ensures var hasMore := rangeLast < numMessages;
      Discovery(uids, hasMore, if hasMore then batch[|batch| - 1].uid else upperUID)
        == WindowDiscovery(view, numMessages, first, rangeLast, upperUID)
  {
    assert uids == view[first - 1..rangeLast];
  }

  /** Drops the boundary sentinel, checks the UIDs and decides how far the batch reaches. */
  method AssembleBatch(
    discovered: seq<Item>, first: nat, rangeLast: nat, numMessages: nat, lastUID: nat, upperUID: nat, ghost view: seq<nat>
  ) returns (r: Result<Discovery, Error>)
    requires 1 <= first <= rangeLast <= |view| && (first > 1 ==> view[first - 2] <= lastUID)
    requires HoldsWindow(discovered, view, first, rangeLast)
    ensures r.Success? <==> InWindow(view, first, rangeLast, lastUID, upperUID)
    ensures r.Success? ==> r.value == WindowDiscovery(view, numMessages, first, rangeLast, upperUID)
  {
    WindowIsBatch(discovered, view, first, rangeLast);
    var batch := WithoutSentinel(discovered, first);
    InsideIsInWindow(batch, view, first, rangeLast, lastUID, upperUID);
    if |batch| == 0 {
      return Failure(OnlySentinel);
    }
    var uids := CollectUIDs(batch, lastUID, upperUID);
    if uids.Failure? {
      return Failure(uids.error);
    }
    BatchIsWindow(batch, uids.value, view, numMessages, first, rangeLast, upperUID);
    var hasMore := rangeLast < numMessages;
    var processedThrough := if hasMore then batch[|batch| - 1].uid else upperUID;
    return Success(Discovery(uids.value, hasMore, processedThrough));
  }

  /** The batch between two readings of its trailing sentinel (there is none when the window
      reaches the end of the SELECT view). */
  method FetchWindow(m: Mailbox, numMessages: nat, rangeFirst: nat, rangeLast: nat)
    returns (r: Result<seq<Item>, Error>, ghost view: seq<nat>, ghost viewNext: nat)
    requires m.Valid() && 1 <= rangeFirst <= rangeLast <= numMessages
    modifies m
    ensures m.Since(old(m.uids), old(m.uidNext))
    ensures r.Success? ==>
      && old(m.uidNext) <= viewNext && Evolves(old(m.uids), view, old(m.uidNext)) && m.Since(view, viewNext)
      && rangeLast <= |view| && (forall k :: 0 <= k < |view| ==> view[k] < viewNext)
      && r.value == View(view, rangeFirst, rangeLast)
      && (rangeLast < numMessages ==> SamePrefix(m.uids, view, rangeLast + 1))
    ensures m.steady && r.Success? ==> old(m.uids) <= view
    ensures m.steady && numMessages <= |m.uids| && rangeLast - rangeFirst < MAX_SEQUENCE_FETCH_MESSAGES ==> r.Success?
  {
    view, viewNext := m.uids, m.uidNext;
    EvolvesRefl(view, viewNext);
    var trailingUID := 0;
    if rangeLast < numMessages {
      var trailing := FetchUIDAt(m, rangeLast + 1);
      if trailing.Failure? {
        return Failure(trailing.error), view, viewNext;
      }
      trailingUID := trailing.value;
    }
    ghost var before, next := m.uids, m.uidNext;
    r := FetchArchiveSequenceRange(m, rangeFirst, rangeLast);
    view, viewNext := m.uids, m.uidNext;
    EvolvesRefl(view, viewNext);
    m.SinceTrans(old(m.uids), old(m.uidNext), before, next);
    if r.Failure? || rangeLast == numMessages {
      return;
    }
    var trailing := FetchUIDAt(m, rangeLast + 1);
    m.SinceTrans(old(m.uids), old(m.uidNext), view, viewNext);
    if trailing.Failure? {
      return Failure(trailing.error), view, viewNext;
    }
    if trailing.value != trailingUID {
      return Failure(TrailingSentinelChanged), view, viewNext;
    }
    TrailingStable(before, view, m.uids, next, viewNext, rangeLast);
  }

  /** The leading sentinel, checked against the cursor and then read again. */
  method RecheckLeading(m: Mailbox, first: nat, rangeFirst: nat, lastUID: nat, leadingUID: nat) returns (r: Option<Error>)
    requires m.Valid() && 1 <= rangeFirst
    modifies m
    ensures m.Since(old(m.uids), old(m.uidNext))
    ensures r.None? ==> rangeFirst <= |m.uids| && m.uids[rangeFirst - 1] == leadingUID && (first > 1 ==> leadingUID <= lastUID)
    ensures m.steady && rangeFirst <= |m.uids| && m.uids[rangeFirst - 1] == leadingUID && (first > 1 ==> leadingUID <= lastUID) ==> r.None?
  {
    EvolvesRefl(m.uids, m.uidNext);
    if first > 1 && leadingUID > lastUID {
      return Some(BoundaryChanged);
    }
    var leading := FetchUIDAt(m, rangeFirst);
    if leading.Failure? {
      return Some(leading.error);
    }
    if leading.value != leadingUID {
      return Some(BoundaryChanged);
    }
    return None;
  }

  /** What is known once the window has been read. */
  ghost predicate WindowRead(w: Witness, viewNext: nat, selected: seq<nat>, now: seq<nat>, upperUID: nat, first: nat, rangeLast: nat) {
    && upperUID < viewNext && Evolves(selected, w.view, upperUID + 1) && Evolves(w.view, now, viewNext)
    && (forall k :: 0 <= k < |w.view| ==> w.view[k] < viewNext)
    && 1 <= first <= rangeLast <= |selected| && rangeLast <= |w.view|
    && w.anchor == (if first > 1 then first - 1 else first)
    && Evolves(selected, w.recheck, upperUID + 1) && Evolves(w.recheck, now, upperUID + 1)
    && (rangeLast < |selected| ==> SamePrefix(w.recheck, w.view, rangeLast + 1))
  }

  lemma WindowIsExact(
    w: Witness, viewNext: nat, selected: seq<nat>, now: seq<nat>, lastUID: nat, upperUID: nat, first: nat, rangeLast: nat
  )
    requires Selected(selected, |selected|, upperUID) && lastUID < upperUID
    requires WindowRead(w, viewNext, selected, now, upperUID, first, rangeLast)
    requires InWindow(w.view, first, rangeLast, lastUID, upperUID)
    ensures ExactBatch(WindowDiscovery(w.view, |selected|, first, rangeLast, upperUID), w.view, selected, now, lastUID, upperUID)
  {
    WindowIsInterval(selected, w.view, upperUID, lastUID, first, rangeLast);
    EvolvesWeaken(w.view, now, upperUID + 1, viewNext);
    var d := WindowDiscovery(w.view, |selected|, first, rangeLast, upperUID);
    IntervalAscending(w.view, lastUID, d.processedThrough);
  }

  lemma WindowReadSurvives(
    w: Witness, viewNext: nat, selected: seq<nat>, was: seq<nat>, now: seq<nat>, next: nat, upperUID: nat, first: nat, rangeLast: nat
  )
    requires WindowRead(w, viewNext, selected, was, upperUID, first, rangeLast)
    requires viewNext <= next && Evolves(was, now, next)
    ensures WindowRead(w, viewNext, selected, now, upperUID, first, rangeLast)
  {
    EvolvesTrans(w.view, was, now, viewNext, next);
    EvolvesTrans(w.recheck, was, now, upperUID + 1, next);
  }

  lemma RecheckedWindow(
    w: Witness, viewNext: nat, selected: seq<nat>, now: seq<nat>, lastUID: nat, upperUID: nat, first: nat, rangeLast: nat, limit: nat
  )
    requires Selected(selected, |selected|, upperUID) && 1 <= limit && rangeLast == first + limit - 1 < |selected|
    requires WindowRead(w, viewNext, selected, now, upperUID, first, rangeLast)
    requires InWindow(w.view, first, rangeLast, lastUID, upperUID)
    ensures FullBatch(WindowDiscovery(w.view, |selected|, first, rangeLast, upperUID), w.recheck, now, lastUID, upperUID, limit)
  {
    WindowIsInterval(selected, w.recheck, upperUID, lastUID, first, rangeLast);
    SameWindow(w.view, w.recheck, |selected|, first, rangeLast, upperUID);
  }

  lemma SameWindow(view: seq<nat>, recheck: seq<nat>, numMessages: nat, first: nat, rangeLast: nat, upperUID: nat)
    requires 1 <= first <= rangeLast < numMessages && SamePrefix(recheck, view, rangeLast)
    ensures var d := WindowDiscovery(view, numMessages, first, rangeLast, upperUID);
      && WindowDiscovery(recheck, numMessages, first, rangeLast, upperUID) == d
      && |d.uids| == rangeLast - first + 1 && d.processedThrough == d.uids[rangeLast - first]
  {
    assert recheck[first - 1..rangeLast] == view[first - 1..rangeLast];
  }

  lemma LeadingHeld(
    w: Witness, viewNext: nat, selected: seq<nat>, now: seq<nat>, upperUID: nat, first: nat, rangeLast: nat
  )
    requires WindowRead(w, viewNext, selected, now, upperUID, first, rangeLast)
    requires w.anchor <= |now| && now[w.anchor - 1] == w.view[w.anchor - 1]
    ensures AnchorHeld(w, now)
  {
    StablePrefix(w.view, now, viewNext, w.anchor - 1);
  }

  /** Both sentinels in place: the window is a safe batch. */
  lemma WindowIsSafe(
    w: Witness, viewNext: nat, selected: seq<nat>, now: seq<nat>, lastUID: nat, upperUID: nat, first: nat, limit: int
  )
    requires Selected(selected, |selected|, upperUID) && lastUID < upperUID && 1 <= limit && 1 <= first <= |selected|
    requires WindowRead(w, viewNext, selected, now, upperUID, first, RangeLast(|selected|, first, limit))
    requires InWindow(w.view, first, RangeLast(|selected|, first, limit), lastUID, upperUID)
    requires w.anchor <= |now| && now[w.anchor - 1] == w.view[w.anchor - 1]
    ensures var rangeLast := RangeLast(|selected|, first, limit);
      SafeBatch(WindowDiscovery(w.view, |selected|, first, rangeLast, upperUID), w, selected, now, lastUID, upperUID, limit)
  {
    var rangeLast := RangeLast(|selected|, first, limit);
    WindowIsExact(w, viewNext, selected, now, lastUID, upperUID, first, rangeLast);
    if rangeLast < |selected| {
      RecheckedWindow(w, viewNext, selected, now, lastUID, upperUID, first, rangeLast, limit);
    }
    LeadingHeld(w, viewNext, selected, now, upperUID, first, rangeLast);
  }

  /** The branch that reads a bounded sequence window between two sentinels. */
  method DiscoverWindow(
    m: Mailbox, numMessages: nat, lastUID: nat, upperUID: nat, limit: int, first: nat, ghost selected: seq<nat>
  ) returns (r: Result<Discovery, Error>, ghost w: Witness)
    requires m.Since(selected, upperUID + 1) && Selected(selected, numMessages, upperUID)
    requires lastUID < upperUID && 1 <= limit && 1 <= first <= numMessages
    requires first > 1 ==> selected[first - 2] <= lastUID
    requires m.steady ==> selected[first - 1] > lastUID
    modifies m
    ensures m.Since(selected, upperUID + 1)
    ensures r.Success? ==> SafeBatch(r.value, w, selected, m.uids, lastUID, upperUID, limit)
    ensures m.steady && limit < MAX_SEQUENCE_FETCH_MESSAGES ==>
      r.Success? && r.value == NextBatch(selected, lastUID, upperUID, limit)
  {
    var rangeFirst := if first > 1 then first - 1 else first;
    var rangeLast := RangeLast(numMessages, first, limit);
    ghost var view, viewNext;
    var discovered;
    ghost var before, next := m.uids, m.uidNext;
    discovered, view, viewNext := FetchWindow(m, numMessages, rangeFirst, rangeLast);
    m.SinceTrans(selected, upperUID + 1, before, next);
    w := Witness(view, m.uids, rangeFirst);
    if discovered.Failure? {
      return Failure(discovered.error), w;
    }
    EvolvesTrans(selected, before, view, upperUID + 1, next);
    EvolvesWeaken(view, m.uids, upperUID + 1, viewNext);
    EvolvesRefl(m.uids, upperUID + 1);
    if m.steady {
      SteadyWindow(selected, upperUID, lastUID, first, limit);
      ExtendedWindow(selected, view, upperUID, lastUID, first, rangeLast);
    }
    r := FinishWindow(m, numMessages, lastUID, upperUID, limit, first, rangeLast, discovered.value, selected, w, viewNext);
  }

  /** The second half: the leading sentinel, then the batch itself. */
  method FinishWindow(
    m: Mailbox, numMessages: nat, lastUID: nat, upperUID: nat, limit: int, first: nat, rangeLast: nat, discovered: seq<Item>,
    ghost selected: seq<nat>, ghost w: Witness, ghost viewNext: nat
  ) returns (r: Result<Discovery, Error>)
    requires m.Since(selected, upperUID + 1) && Selected(selected, numMessages, upperUID)
    requires lastUID < upperUID && 1 <= limit && 1 <= first <= numMessages && rangeLast == RangeLast(numMessages, first, limit)
    requires w.recheck == m.uids && m.Since(w.view, viewNext)
    requires WindowRead(w, viewNext, selected, m.uids, upperUID, first, rangeLast)
    requires discovered == View(w.view, w.anchor, rangeLast)
    modifies m
    ensures m.Since(selected, upperUID + 1)
    ensures r.Success? ==> SafeBatch(r.value, w, selected, m.uids, lastUID, upperUID, limit)
    ensures r.Success? ==> r.value == WindowDiscovery(w.view, numMessages, first, rangeLast, upperUID)
    ensures m.steady && InWindow(w.view, first, rangeLast, lastUID, upperUID) ==> r.Success?
  {
    ghost var was, next := m.uids, m.uidNext;
    ViewHoldsWindow(w.view, first, rangeLast);
    var leading := RecheckLeading(m, first, if first > 1 then first - 1 else first, lastUID, discovered[0].uid);
    m.SinceTrans(selected, upperUID + 1, was, next);
    WindowReadSurvives(w, viewNext, selected, was, m.uids, next, upperUID, first, rangeLast);
    if leading.Some? {
      return Failure(leading.value);
    }
    r := AssembleBatch(discovered, first, rangeLast, numMessages, lastUID, upperUID, w.view);
    if r.Success? {
      WindowIsSafe(w, viewNext, selected, m.uids, lastUID, upperUID, first, limit);
    }
  }
}
