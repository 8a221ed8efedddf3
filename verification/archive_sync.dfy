/** The cursor logic of `fetchArchiveIncremental` and what it guarantees over whole runs. */
module ArchiveSync {
  import opened Basics
  import opened Results
  import opened Mailboxes
  import opened ArchiveDiscovery

  // ---- The reset boundary ----------------------------------------------------------------

  lemma TailPinsSnapshot(selected: seq<nat>, uids: seq<nat>, upperUID: nat)
    requires selected != [] && Selected(selected, |selected|, upperUID) && Evolves(selected, uids, upperUID + 1)
    requires |selected| <= |uids| && uids[|selected| - 1] <= upperUID
    ensures SamePrefix(uids, selected, |selected|)
  {
    var k := |selected| - 1;
    Pairs(selected);
    ExpungeShifts(selected, uids, upperUID + 1, k);
    OldElement(selected, uids, upperUID + 1, uids[k]);
    StablePrefix(selected, uids, upperUID + 1, k);
  }

  lemma NewestSuffix(selected: seq<nat>, upperUID: nat, cursor: nat, from: nat)
    requires Selected(selected, |selected|, upperUID) && from <= |selected|
    requires from > 0 ==> selected[from - 1] <= cursor
    requires from < |selected| ==> selected[from] > cursor
    ensures Interval(selected, cursor, upperUID) == selected[from..]
  {
    IntervalIsSlice(selected, from, |selected|, cursor, upperUID);
  }

  method FetchAfter(m: Mailbox, sequence: nat, upperUID: nat, ghost selected: seq<nat>) returns (r: Result<nat, Error>)
    requires m.Since(selected, upperUID + 1)
    modifies m
    ensures m.Since(selected, upperUID + 1)
    ensures r.Success? ==> 1 <= sequence <= |m.uids| && r.value == m.uids[sequence - 1]
    ensures m.steady && 1 <= sequence <= |m.uids| ==> r.Success?
  {
    ghost var was, next := m.uids, m.uidNext;
    r := FetchUIDAt(m, sequence);
    m.SinceTrans(selected, upperUID + 1, was, next);
  }

  /** `establishArchiveRecentCursor`. Whatever interferes, a cursor it returns leaves exactly
      the newest min(numMessages, limit) messages of the SELECT view above it. */
  method EstablishArchiveRecentCursor(m: Mailbox, numMessages: nat, upperUID: nat, limit: int, ghost selected: seq<nat>)
    returns (r: Result<(nat, bool), Error>)
    requires m.Since(selected, upperUID + 1) && Selected(selected, numMessages, upperUID)
    modifies m
    ensures m.Since(selected, upperUID + 1)
    ensures r.Success? ==> limit >= 1 && r.value.0 <= upperUID && r.value.1 == (numMessages > 0)
    ensures r.Success? && numMessages == 0 ==> r.value.0 == upperUID
    ensures r.Success? ==> Interval(selected, r.value.0, upperUID) == selected[numMessages - Min(numMessages, limit)..]
    ensures m.steady && limit >= 1 ==> r.Success?
  {
    if limit < 1 {
      return Failure(InvalidLimit);
    }
    if numMessages == 0 {
      return Success((upperUID, false));
    }
    if numMessages <= limit {
      NewestSuffix(selected, upperUID, 0, 0);
      return Success((0, true));
    }
    var tailBefore := FetchAfter(m, numMessages, upperUID, selected);
    if tailBefore.Failure? || tailBefore.value > upperUID {
      return Failure(if tailBefore.Failure? then tailBefore.error else InvalidTail);
    }
    var boundarySequence := numMessages - limit;
    assert InOrderAt(selected, boundarySequence - 1, numMessages - 1) && InOrderAt(selected, boundarySequence - 1, boundarySequence);
    var boundary := FetchAfter(m, boundarySequence, upperUID, selected);
    if boundary.Failure? || boundary.value >= tailBefore.value {
      return Failure(if boundary.Failure? then boundary.error else InvalidBoundary);
    }
    ghost var middle, middleNext := m.uids, m.uidNext;
    var tailAfter := FetchUIDAt(m, numMessages);
    m.SinceTrans(selected, upperUID + 1, middle, middleNext);
    if tailAfter.Failure? || tailAfter.value != tailBefore.value {
      return Failure(if tailAfter.Failure? then tailAfter.error else WindowChanged);
    }
    ExpungeShifts(middle, m.uids, middleNext, numMessages - 1);
    TailPinsSnapshot(selected, middle, upperUID);
    NewestSuffix(selected, upperUID, boundary.value, boundarySequence);
    return Success((boundary.value, true));
  }

  // ---- Draining a quiet mailbox ----------------------------------------------------------

  /** The batches that successive calls deliver, each starting at the committed cursor. */
  function Batches(s: seq<nat>, cursor: nat, upperUID: nat, limit: nat): (b: seq<seq<nat>>)
    requires Ascending(s) && 1 <= limit
    decreases |Interval(s, cursor, upperUID)|
  {
    var d := NextBatch(s, cursor, upperUID, limit);
    if d.hasMore then
      IntervalAfter(s, cursor, upperUID, limit);
      [d.uids] + Batches(s, d.processedThrough, upperUID, limit)
    else
      [d.uids]
  }

  function Concat(b: seq<seq<nat>>): seq<nat> {
    if b == [] then [] else b[0] + Concat(b[1..])
  }

  lemma ConcatCons(x: seq<nat>, rest: seq<seq<nat>>)
    ensures Concat([x] + rest) == x + Concat(rest)
  {
    assert ([x] + rest)[1..] == rest;
  }

  /** ceil(k / limit), but at least one. */
  function BatchCount(k: nat, limit: nat): (c: nat)
    requires 1 <= limit
  {
    if k <= limit then 1 else 1 + BatchCount(k - limit, limit)
  }

  lemma {:induction false} BatchCountIsCeiling(k: nat, limit: nat)
    requires 1 <= limit
    ensures k == 0 ==> BatchCount(k, limit) == 1
    ensures k > 0 ==> (BatchCount(k, limit) - 1) * limit < k <= BatchCount(k, limit) * limit
  {
    if k > limit { BatchCountIsCeiling(k - limit, limit); }
  }

  lemma IntervalAfter(s: seq<nat>, cursor: nat, upperUID: nat, n: nat)
    requires Ascending(s) && 1 <= n <= |Interval(s, cursor, upperUID)|
    ensures var all := Interval(s, cursor, upperUID); Interval(s, all[n - 1], upperUID) == all[n..]
  {
    var all := Interval(s, cursor, upperUID);
    IntervalAscending(s, cursor, upperUID);
    IntervalAscending(s, all[n - 1], upperUID);
    var rest := Interval(s, all[n - 1], upperUID);
    IntervalMembers(s, cursor, upperUID);
    IntervalMembers(s, all[n - 1], upperUID);
    Pairs(all);
    assert all[n - 1] in all;
    assert Ascending(all[n..]);
    forall u ensures u in rest <==> u in all[n..] {
      if u in rest {
        assert u in all;
        var k :| 0 <= k < |all| && all[k] == u;
        assert k >= n && all[n..][k - n] == u;
      }
      if u in all[n..] {
        var k :| 0 <= k < |all[n..]| && all[n..][k] == u;
        assert u == all[n + k] && u in all;
      }
    }
    AscendingUnique(rest, all[n..]);
  }

  lemma BatchStep(s: seq<nat>, cursor: nat, upperUID: nat, limit: nat)
    requires Ascending(s) && 1 <= limit < |Interval(s, cursor, upperUID)|
    ensures var d := NextBatch(s, cursor, upperUID, limit);
      && d.hasMore
      && Batches(s, cursor, upperUID, limit) == [d.uids] + Batches(s, d.processedThrough, upperUID, limit)
      && Interval(s, cursor, upperUID) == d.uids + Interval(s, d.processedThrough, upperUID)
      && |Interval(s, d.processedThrough, upperUID)| == |Interval(s, cursor, upperUID)| - limit
  {
    IntervalAfter(s, cursor, upperUID, limit);
    var all := Interval(s, cursor, upperUID);
    assert all == all[..limit] + all[limit..];
  }

  /** Repeating batches from a committed cursor yields exactly the sorted UIDs above it, each
      once, in max(1, ceil(k / limit)) batches. */
  lemma {:induction false} DrainIsExact(s: seq<nat>, cursor: nat, upperUID: nat, limit: nat)
    requires Ascending(s) && 1 <= limit
    ensures Concat(Batches(s, cursor, upperUID, limit)) == Interval(s, cursor, upperUID)
    ensures |Batches(s, cursor, upperUID, limit)| == BatchCount(|Interval(s, cursor, upperUID)|, limit)
    decreases |Interval(s, cursor, upperUID)|
  {
    var d := NextBatch(s, cursor, upperUID, limit);
    if d.hasMore {
      BatchStep(s, cursor, upperUID, limit);
      DrainIsExact(s, d.processedThrough, upperUID, limit);
      ConcatCons(d.uids, Batches(s, d.processedThrough, upperUID, limit));
    } else {
      ConcatCons(d.uids, []);
    }
  }

  // ---- One synchronization ---------------------------------------------------------------

  datatype SyncState = SyncState(accountID: int, uidValidity: nat, lastUID: nat)

  datatype SyncResult = SyncResult(state: SyncState, reset: bool, hasMore: bool, targetUID: nat, uids: seq<nat>)

  datatype Settings = Settings(maxCandidates: int, maxIncrementalCandidates: int)

  /** The limits `Fetcher.settings` produces. */
  predicate InRange(settings: Settings) {
    settings.maxCandidates >= 1 && 1 <= settings.maxIncrementalCandidates < MAX_SEQUENCE_FETCH_MESSAGES
  }

  ghost predicate IsReset(previous: Option<SyncState>, accountID: int, uidValidity: nat) {
    previous.None? || previous.value.accountID != accountID || previous.value.uidValidity != uidValidity
  }

  ghost predicate CursorInside(previous: Option<SyncState>, accountID: int, m: Mailbox)
    reads m
  {
    IsReset(previous, accountID, m.uidValidity) || previous.value.lastUID < m.uidNext
  }

  /** What one successful sync does to the cursor, whatever happens to the mailbox meanwhile:
      `selected` is the SELECT view and `now` the mailbox on return. */
  ghost predicate SyncContract(
    s: SyncResult, previous: Option<SyncState>, accountID: int, uidValidity: nat, hasAliases: bool,
    settings: Settings, selected: seq<nat>, now: seq<nat>
  ) {
    var cursor := s.state.lastUID;
    && s.state.accountID == accountID && s.state.uidValidity == uidValidity != 0
    && (s.reset <==> IsReset(previous, accountID, uidValidity))
    && cursor <= s.targetUID
    && (!hasAliases ==> cursor == s.targetUID && s.uids == [] && !s.hasMore)
    && (hasAliases && s.reset ==>
      && s.uids == [] && settings.maxCandidates >= 1 && (s.hasMore <==> selected != [])
      && (!s.hasMore ==> cursor == s.targetUID)
      && Interval(selected, cursor, s.targetUID) == selected[|selected| - Min(|selected|, settings.maxCandidates)..])
    && (hasAliases && !s.reset ==>
      && previous.value.lastUID <= cursor
      && (previous.value.lastUID < s.targetUID ==> previous.value.lastUID < cursor)
      && (!s.hasMore ==> cursor == s.targetUID)
      && Ascending(s.uids)
      && (forall u :: u in s.uids ==> u in selected && previous.value.lastUID < u <= cursor)
      && (forall u :: u in now && previous.value.lastUID < u <= cursor ==> u in s.uids))
  }

  lemma ContractSurvives(
    s: SyncResult, previous: Option<SyncState>, accountID: int, uidValidity: nat, hasAliases: bool,
    settings: Settings, selected: seq<nat>, now: seq<nat>, later: seq<nat>, nowNext: nat
  )
    requires SyncContract(s, previous, accountID, uidValidity, hasAliases, settings, selected, now)
    requires s.targetUID < nowNext && Evolves(now, later, nowNext)
    ensures SyncContract(s, previous, accountID, uidValidity, hasAliases, settings, selected, later)
  {
    forall u | u in later && u <= s.targetUID ensures u in now {
      OldElement(now, later, nowNext, u);
    }
  }

  /** The branches of `fetchArchiveIncremental` between SELECT and publication. */
  method AdvanceCursor(
    m: Mailbox, numMessages: nat, upperUID: nat, accountID: int, previous: Option<SyncState>, hasAliases: bool,
    settings: Settings, ghost selected: seq<nat>
  ) returns (r: Result<SyncResult, Error>)
    requires m.Since(selected, upperUID + 1) && Selected(selected, numMessages, upperUID) && m.uidValidity != 0
    modifies m
    ensures m.Since(selected, upperUID + 1)
    ensures r.Success? ==> r.value.targetUID == upperUID
    ensures r.Success? ==>
      SyncContract(r.value, previous, accountID, m.uidValidity, hasAliases, settings, selected, m.uids)
    ensures r.Success? && m.steady && hasAliases && !r.value.reset && InRange(settings) ==>
      Discovery(r.value.uids, r.value.hasMore, r.value.state.lastUID)
        == NextBatch(selected, previous.value.lastUID, upperUID, settings.maxIncrementalCandidates)
    ensures m.steady && InRange(settings) && (IsReset(previous, accountID, m.uidValidity) || previous.value.lastUID <= upperUID) ==> r.Success?
  {
    var reset := previous.None? || previous.value.accountID != accountID || previous.value.uidValidity != m.uidValidity;
    var state := SyncState(accountID, m.uidValidity, upperUID);
    if !hasAliases {
      return Success(SyncResult(state, reset, false, upperUID, []));
    }
    if reset {
      var cursor := EstablishArchiveRecentCursor(m, numMessages, upperUID, settings.maxCandidates, selected);
      if cursor.Failure? {
        return Failure(cursor.error);
      }
      return Success(SyncResult(state.(lastUID := cursor.value.0), true, cursor.value.1, upperUID, []));
    }
    var lastUID := previous.value.lastUID;
    if lastUID > upperUID {
      return Failure(CursorAboveMailbox);
    }
    if lastUID == upperUID {
      IntervalEmpty(selected, upperUID, upperUID);
      return Success(SyncResult(state, false, false, upperUID, []));
    }
    ghost var w;
    var discovery;
    discovery, w := DiscoverArchiveUIDs(m, numMessages, lastUID, upperUID, settings.maxIncrementalCandidates, selected);
    if discovery.Failure? {
      return Failure(discovery.error);
    }
    var d := discovery.value;
    BatchIsComplete(d, w.view, selected, m.uids, lastUID, upperUID);
    return Success(SyncResult(state.(lastUID := d.processedThrough), false, d.hasMore, upperUID, d.uids));
  }

  method FetchArchiveIncremental(
    m: Mailbox, accountID: int, previous: Option<SyncState>, hasAliases: bool, settings: Settings
  ) returns (r: Result<SyncResult, Error>, ghost selected: seq<nat>)
    requires m.Valid()
    modifies m
    ensures m.Since(old(m.uids), old(m.uidNext))
    ensures r.Success? ==> m.Since(selected, r.value.targetUID + 1) && old(m.uidNext) <= r.value.targetUID + 1
    ensures r.Success? ==>
      SyncContract(r.value, previous, accountID, m.uidValidity, hasAliases, settings, selected, m.uids)
    ensures r.Success? && !r.value.reset ==>
      (previous.value.lastUID <= r.value.state.lastUID <==> hasAliases || previous.value.lastUID <= r.value.targetUID)
    ensures m.steady && r.Success? ==> old(m.uids) <= selected
    ensures r.Success? && m.steady && hasAliases && !r.value.reset && InRange(settings) ==>
      Discovery(r.value.uids, r.value.hasMore, r.value.state.lastUID)
        == NextBatch(selected, previous.value.lastUID, r.value.targetUID, settings.maxIncrementalCandidates)
    ensures m.steady && m.uidValidity != 0 && InRange(settings) && old(CursorInside(previous, accountID, m)) ==> r.Success?
  {
    m.Interfere();
    selected := m.uids;
    ghost var selectedNext := m.uidNext;
    EvolvesRefl(selected, selectedNext);
    if m.uidValidity == 0 {
      return Failure(InvalidRange), selected;
    }
    r := AdvanceCursor(m, |m.uids|, m.uidNext - 1, accountID, previous, hasAliases, settings, selected);
    m.SinceTrans(old(m.uids), old(m.uidNext), selected, selectedNext);
    if r.Success? {
      ghost var now, next := m.uids, m.uidNext;
      ghost var result := r.value;
      r := Publish(m, r.value);
      m.SinceTrans(selected, selectedNext, now, next);
      m.SinceTrans(old(m.uids), old(m.uidNext), selected, selectedNext);
      ContractSurvives(result, previous, accountID, m.uidValidity, hasAliases, settings, selected, now, m.uids, next);
    }
  }

  /** `publish`: one more UID FETCH before the result is handed over, which can fail. */
  method Publish(m: Mailbox, result: SyncResult) returns (r: Result<SyncResult, Error>)
    requires m.Valid()
    modifies m
    ensures m.Since(old(m.uids), old(m.uidNext))
    ensures r.Success? ==> r.value == result
    ensures m.steady ==> r.Success?
  {
    m.Interfere();
    var failed: bool := *;
    if failed && !m.steady {
      return Failure(CommandFailed);
    }
    return Success(result);
  }

  method SyncQuietly(m: Mailbox, accountID: int, state: SyncState, settings: Settings)
    returns (batch: seq<nat>, more: bool, next: SyncState)
    requires m.Valid() && m.quiet && m.uidValidity != 0 && InRange(settings)
    requires state.accountID == accountID && state.uidValidity == m.uidValidity && state.lastUID < m.uidNext
    modifies m
    ensures m.Valid() && m.uids == old(m.uids) && m.uidNext == old(m.uidNext)
    ensures next == state.(lastUID := next.lastUID) && next.lastUID < m.uidNext
    ensures Discovery(batch, more, next.lastUID) == NextBatch(m.uids, state.lastUID, m.uidNext - 1, settings.maxIncrementalCandidates)
  {
    var r;
    ghost var selected;
    r, selected := FetchArchiveIncremental(m, accountID, Some(state), true, settings);
    return r.value.uids, r.value.hasMore, r.value.state;
  }

  lemma NextOf(s: seq<nat>, cursor: nat, upperUID: nat, limit: nat, done: seq<seq<nat>>)
    requires Ascending(s) && 1 <= limit
    ensures var d := NextBatch(s, cursor, upperUID, limit);
      && done + Batches(s, cursor, upperUID, limit) ==
        done + [d.uids] + (if d.hasMore then Batches(s, d.processedThrough, upperUID, limit) else [])
      && (d.hasMore ==> |Interval(s, d.processedThrough, upperUID)| < |Interval(s, cursor, upperUID)|)
      && (!d.hasMore ==> d.processedThrough == upperUID)
  {
    var d := NextBatch(s, cursor, upperUID, limit);
    if d.hasMore {
      BatchStep(s, cursor, upperUID, limit);
    }
    var rest := if d.hasMore then Batches(s, d.processedThrough, upperUID, limit) else [];
    assert done + [d.uids] + rest == done + ([d.uids] + rest);
  }

  /** Syncing until nothing is left, on a mailbox nobody else touches, hands over exactly the
      batches of `Batches`, hence (`DrainIsExact`) every UID above the cursor once. */
  method Drain(m: Mailbox, accountID: int, state: SyncState, settings: Settings)
    returns (batches: seq<seq<nat>>, final: SyncState)
    requires m.Valid() && m.quiet && m.uidValidity != 0 && InRange(settings)
    requires state.accountID == accountID && state.uidValidity == m.uidValidity && state.lastUID < m.uidNext
    modifies m
    ensures m.Valid() && m.uids == old(m.uids) && m.uidNext == old(m.uidNext)
    ensures batches == Batches(m.uids, state.lastUID, m.uidNext - 1, settings.maxIncrementalCandidates)
    ensures final == state.(lastUID := m.uidNext - 1)
  {
    ghost var s, upper, limit := m.uids, m.uidNext - 1, settings.maxIncrementalCandidates;
    batches, final := [], state;
    var more := true;
    assert batches + Batches(s, final.lastUID, upper, limit) == Batches(s, final.lastUID, upper, limit);
    while more
      invariant m.Valid() && m.uids == s && m.uidNext == upper + 1
      invariant final == state.(lastUID := final.lastUID) && final.lastUID <= upper
      invariant Batches(s, state.lastUID, upper, limit) ==
        batches + (if more then Batches(s, final.lastUID, upper, limit) else [])
      invariant !more ==> final.lastUID == upper
      decreases more, |Interval(s, final.lastUID, upper)|
    {
      NextOf(s, final.lastUID, upper, limit, batches);
      var batch;
      batch, more, final := SyncQuietly(m, accountID, final, settings);
      batches := batches + [batch];
    }
  }

  lemma DrainSuffix(s: seq<nat>, cursor: nat, upperUID: nat, limit: nat, count: nat)
    requires Ascending(s) && 1 <= limit && count <= |s| && Interval(s, cursor, upperUID) == s[|s| - count..]
    ensures Concat(Batches(s, cursor, upperUID, limit)) == s[|s| - count..]
    ensures |Batches(s, cursor, upperUID, limit)| == BatchCount(count, limit)
  {
    DrainIsExact(s, cursor, upperUID, limit);
  }

  method ResetQuietly(m: Mailbox, accountID: int, settings: Settings) returns (state: SyncState, more: bool)
    requires m.Valid() && m.quiet && m.uidValidity != 0 && InRange(settings)
    modifies m
    ensures m.Valid() && m.uids == old(m.uids) && m.uidNext == old(m.uidNext)
    ensures state == SyncState(accountID, m.uidValidity, state.lastUID) && state.lastUID < m.uidNext
    ensures (more <==> m.uids != []) && (!more ==> state.lastUID == m.uidNext - 1)
    ensures Interval(m.uids, state.lastUID, m.uidNext - 1) == m.uids[|m.uids| - Min(|m.uids|, settings.maxCandidates)..]
  {
    var r;
    ghost var selected;
    r, selected := FetchArchiveIncremental(m, accountID, None, true, settings);
    return r.value.state, r.value.hasMore;
  }

  method DrainNewest(m: Mailbox, accountID: int, state: SyncState, settings: Settings, ghost count: nat)
    returns (batches: seq<seq<nat>>, final: SyncState)
    requires m.Valid() && m.quiet && m.uidValidity != 0 && InRange(settings)
    requires state.accountID == accountID && state.uidValidity == m.uidValidity && state.lastUID < m.uidNext
    requires count <= |m.uids| && Interval(m.uids, state.lastUID, m.uidNext - 1) == m.uids[|m.uids| - count..]
    modifies m
    ensures m.Valid() && m.uids == old(m.uids) && m.uidNext == old(m.uidNext)
    ensures Concat(batches) == m.uids[|m.uids| - count..]
    ensures |batches| == BatchCount(count, settings.maxIncrementalCandidates)
    ensures final == state.(lastUID := m.uidNext - 1)
  {
    DrainSuffix(m.uids, state.lastUID, m.uidNext - 1, settings.maxIncrementalCandidates, count);
    batches, final := Drain(m, accountID, state, settings);
  }

  /** A first sync and the ones after it, on a quiet mailbox: exactly the newest messages up to
      the candidate limit, oldest first, in as few batches as the batch limit allows. */
  method SyncFromScratch(m: Mailbox, accountID: int, settings: Settings) returns (batches: seq<seq<nat>>, final: SyncState)
    requires m.Valid() && m.quiet && m.uidValidity != 0 && InRange(settings)
    modifies m
    ensures m.Valid() && m.uids == old(m.uids) && m.uidNext == old(m.uidNext)
    ensures var count := Min(|m.uids|, settings.maxCandidates);
      && Concat(batches) == m.uids[|m.uids| - count..]
      && (count > 0 ==> |batches| == BatchCount(count, settings.maxIncrementalCandidates))
      && (count == 0 ==> batches == [])
    ensures final == SyncState(accountID, m.uidValidity, m.uidNext - 1)
  {
    var state, more := ResetQuietly(m, accountID, settings);
    if !more {
      assert m.uids == [] && Concat([]) == [];
      return [], state;
    }
    ghost var count := Min(|m.uids|, settings.maxCandidates);
    batches, final := DrainNewest(m, accountID, state, settings, count);
  }

  // ---- Whole runs ------------------------------------------------------------------------

  /** One account's archive. `delivered` is every UID handed over for archiving in the current
      UIDVALIDITY generation; messages at or below `floor` were given up by a reset or while
      the account had no aliases. */
  class ArchiveAccount {
    const accountID: int
    const settings: Settings
    var state: Option<SyncState>
    ghost var delivered: set<nat>
    ghost var floor: nat

    constructor (accountID: int, settings: Settings)
      ensures this.accountID == accountID && this.settings == settings
      ensures state == None && delivered == {} && floor == 0
    {
      this.accountID, this.settings := accountID, settings;
      state, delivered, floor := None, {}, 0;
    }

    /** Every message the cursor has passed and that still exists has been delivered. */
    ghost predicate NothingSkipped(m: Mailbox)
      reads this, m
    {
      state.Some? && state.value.accountID == accountID && state.value.uidValidity == m.uidValidity ==>
        floor <= state.value.lastUID < m.uidNext && Covered(m.uids, delivered, floor, state.value.lastUID)
    }

    /** A sync keeps `NothingSkipped`; on failure the cursor stays where it was. */
    method Sync(m: Mailbox, hasAliases: bool) returns (r: Result<SyncResult, Error>)
      requires m.Valid() && NothingSkipped(m)
      modifies this, m
      ensures m.Since(old(m.uids), old(m.uidNext))
      ensures NothingSkipped(m)
      ensures m.steady && m.uidValidity != 0 && InRange(settings) && old(CursorInside(state, accountID, m)) ==> r.Success?
      ensures r.Failure? ==> state == old(state) && delivered == old(delivered) && floor == old(floor)
      ensures r.Success? ==> state == Some(r.value.state) && state.value.uidValidity == m.uidValidity
      ensures r.Success? && !r.value.reset ==> old(state).Some? && old(state).value.lastUID <= state.value.lastUID
      ensures r.Success? && !r.value.reset && hasAliases ==>
        floor == old(floor) && delivered == old(delivered) + Elements(r.value.uids)
    {
      ghost var selected;
      r, selected := FetchArchiveIncremental(m, accountID, state, hasAliases, settings);
      if !IsReset(state, accountID, m.uidValidity) {
        CoveredSurvives(old(m.uids), m.uids, old(m.uidNext), delivered, floor, state.value.lastUID);
      }
      if r.Success? {
        if r.value.reset || !hasAliases {
          delivered, floor := {}, r.value.state.lastUID;
        } else {
          CoveredExtends(m.uids, delivered, floor, state.value.lastUID, r.value);
          delivered := delivered + Elements(r.value.uids);
        }
        state := Some(r.value.state);
      }
    }
  }

  /** Every UID of (floor, cursor] that is present has been delivered. */
  ghost predicate Covered(uids: seq<nat>, delivered: set<nat>, floor: nat, cursor: nat) {
    forall k :: 0 <= k < |uids| && floor < uids[k] <= cursor ==> uids[k] in delivered
  }

  /** Expunges and deliveries never break coverage, so it holds between syncs as well. */
  lemma CoveredSurvives(was: seq<nat>, now: seq<nat>, next: nat, delivered: set<nat>, floor: nat, cursor: nat)
    requires Covered(was, delivered, floor, cursor) && Evolves(was, now, next) && cursor < next
    ensures Covered(now, delivered, floor, cursor)
  {
    forall k | 0 <= k < |now| && floor < now[k] <= cursor ensures now[k] in delivered {
      OldElement(was, now, next, now[k]);
    }
  }

  lemma CoveredExtends(uids: seq<nat>, delivered: set<nat>, floor: nat, cursor: nat, s: SyncResult)
    requires Covered(uids, delivered, floor, cursor) && floor <= cursor
    requires forall u :: u in uids && cursor < u <= s.state.lastUID ==> u in s.uids
    ensures Covered(uids, delivered + Elements(s.uids), floor, s.state.lastUID)
  {
  }
}
