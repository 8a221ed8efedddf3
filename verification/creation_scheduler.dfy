/** Any number of scheduler processes working on one account's row: `processDue` cut at its
    repository calls and clock reads, so that anything may happen in between. */
module CreationScheduler {
  import opened Results
  import opened CreationPlans

  /** The persisted schedule; its next run is the head of the plan. */
  datatype Row = Row(enabled: bool, plan: seq<int>, lastAttempted: Option<int>)

  datatype Outcome = Created | Failed(rateLimited: bool, disable: bool)

  /** Where one manager stands inside `processDue`. */
  datatype Phase =
    | Idle
    | Due(schedule: Row)
    | Rescheduling(expected: int, plan: seq<int>)
    | Claiming(expected: int, plan: seq<int>, claimAt: int)
    | Claimed(plan: seq<int>, claimAt: int)
    | Correcting(plan: seq<int>, claimAt: int, actualAt: int)
    | Creating(attemptedAt: int, plan: seq<int>)
    | Recording(attemptedAt: int, plan: seq<int>, outcome: Outcome)
    | Reacting(plan: seq<int>, rateLimited: bool, disable: bool)
    | CoolingDown(expected: int, plan: seq<int>, disable: bool)
    | Disabling

  // ---- The invariant ---------------------------------------------------------------------

  /** A claim that has not yet started its creator: it owns the time from the claim to the
      head of the plan it installed. */
  predicate Pending(p: Phase) {
    p.Claimed? || p.Correcting?
  }

  ghost predicate OwnsSlot(plan: seq<int>, claimAt: int) {
    Stored(plan) && claimAt + MINIMUM_INTERVAL <= plan[0] <= claimAt + WIDEST_GAP
  }

  ghost predicate PhaseOK(p: Phase, now: int, row: Row) {
    match p
    case Idle => true
    case Due(schedule) => schedule.enabled ==> Stored(schedule.plan)
    case Rescheduling(expected, plan) => Stored(plan) && expected < plan[0]
    case Claiming(expected, plan, claimAt) => OwnsSlot(plan, claimAt) && expected <= claimAt <= now
    case Claimed(plan, claimAt) => OwnsSlot(plan, claimAt) && claimAt <= now && Reaches(row, plan[0])
    case Correcting(plan, claimAt, actualAt) =>
      && OwnsSlot(plan, claimAt) && claimAt <= actualAt <= now && Reaches(row, plan[0])
      && plan[0] < actualAt + MINIMUM_INTERVAL
    case Creating(_, plan) => Stored(plan) && plan[0] <= now + WIDEST_GAP && Reaches(row, plan[0])
    case Recording(_, plan, _) => Stored(plan) && plan[0] <= now + WIDEST_GAP && Reaches(row, plan[0])
    case Reacting(plan, _, _) => Stored(plan) && plan[0] <= now + WIDEST_GAP && Reaches(row, plan[0])
    case CoolingDown(expected, plan, _) => Stored(plan) && expected < plan[0] && Reaches(row, expected)
    case Disabling => true
  }

  /** The next run is not before t. */
  ghost predicate Reaches(row: Row, t: int) {
    row.enabled ==> Stored(row.plan) && t <= row.plan[0]
  }

  /** A creator start is either well before the claim or after the slot the claim owns. */
  ghost predicate Clear(start: int, p: Phase) {
    Pending(p) && p.plan != [] ==> start + MINIMUM_INTERVAL <= p.claimAt || p.plan[0] <= start
  }

  /** Two pending claims own disjoint stretches of time. */
  ghost predicate Disjoint(p: Phase, q: Phase) {
    Pending(p) && Pending(q) && p.plan != [] && q.plan != [] ==> p.plan[0] <= q.claimAt || q.plan[0] <= p.claimAt
  }

  /** The creator has started (or was given up), and the next run it relies on. */
  predicate Started(p: Phase) {
    p.Creating? || p.Recording? || p.Reacting? || p.CoolingDown?
  }

  ghost function Next(p: Phase): int
    requires Started(p) && (p.CoolingDown? || p.plan != [])
  {
    if p.CoolingDown? then p.expected else p.plan[0]
  }

  ghost predicate SameNext(p: Phase, q: Phase) {
    Started(p) && Started(q) && p.plan != [] && q.plan != [] && Next(p) == Next(q)
  }

  /** A pending claim is out of date, or it came after the next run of a creator. */
  ghost predicate Behind(p: Phase, q: Phase, now: int) {
    Started(p) && p.plan != [] && Pending(q) && q.plan != [] ==> q.plan[0] <= now || Next(p) <= q.claimAt
  }

  ghost predicate StartOK(start: int, now: int, row: Row) {
    start <= now && Reaches(row, start + MINIMUM_INTERVAL)
  }

  ghost predicate Inv(now: int, row: Row, phases: map<nat, Phase>, starts: seq<int>) {
    && (row.enabled ==> Stored(row.plan))
    && (forall m :: m in phases ==> PhaseOK(phases[m], now, row))
    && (forall m, i :: m in phases && 0 <= i < |starts| ==> Clear(starts[i], phases[m]))
    && (forall m, n :: m in phases && n in phases && m != n ==> Disjoint(phases[m], phases[n]))
    && (forall m, n :: m in phases && n in phases ==> Behind(phases[m], phases[n], now))
    && (forall i :: 0 <= i < |starts| ==> StartOK(starts[i], now, row))
    && Spaced(starts)
  }

  /** The next run only moves forward, and nothing but an administrator enables the row. */
  ghost predicate Forward(before: Row, after: Row) {
    after.enabled ==>
      before.enabled && Stored(before.plan) && Stored(after.plan)
      && (after.plan == before.plan || before.plan[0] < after.plan[0])
  }

  ghost predicate AllBehind(p: Phase, phases: map<nat, Phase>, m: nat, now: int) {
    forall n :: n in phases && n != m ==> Behind(p, phases[n], now)
  }

  /** Every other claim is out of date or came after the slot of a pending one. */
  lemma OthersAreBehind(now: int, row: Row, phases: map<nat, Phase>, starts: seq<int>, m: nat, p: Phase)
    requires Inv(now, row, phases, starts) && m in phases && Pending(phases[m])
    requires Started(p) && !p.CoolingDown? && p.plan == phases[m].plan
    ensures AllBehind(p, phases, m, now)
  {
    assert PhaseOK(phases[m], now, row);
    forall n | n in phases && n != m ensures Behind(p, phases[n], now) {
      assert Disjoint(phases[m], phases[n]) && PhaseOK(phases[n], now, row);
    }
  }

  lemma PhaseMoves(now: int, row: Row, phases: map<nat, Phase>, starts: seq<int>, m: nat, p: Phase)
    requires Inv(now, row, phases, starts) && PhaseOK(p, now, row)
    requires Pending(p) ==> m in phases && Pending(phases[m]) && p.claimAt == phases[m].claimAt && p.plan == phases[m].plan
    requires Started(p) ==> (m in phases && SameNext(p, phases[m])) || AllBehind(p, phases, m, now)
    ensures Inv(now, row, phases[m := p], starts)
  {
    var after := phases[m := p];
    forall k, n | k in after && n in after ensures Behind(after[k], after[n], now) {
      if k != m && n != m { assert Behind(phases[k], phases[n], now); }
      if n == m && k != m && Pending(p) { assert Behind(phases[k], phases[m], now); }
      if k == m && n != m && Started(p) && m in phases { assert Behind(phases[m], phases[n], now); }
    }
    forall n, i | n in after && 0 <= i < |starts| ensures Clear(starts[i], after[n]) {
      if Pending(p) { assert Clear(starts[i], phases[m]); }
      if n != m { assert Clear(starts[i], phases[n]); }
    }
    forall k, n | k in after && n in after && k != n ensures Disjoint(after[k], after[n]) {
      if k != m && n != m { assert Disjoint(phases[k], phases[n]); }
      if k == m && Pending(p) { assert Disjoint(phases[m], phases[n]); }
      if n == m && Pending(p) { assert Disjoint(phases[k], phases[m]); }
    }
  }

  lemma RowMoves(now: int, row: Row, after: Row, phases: map<nat, Phase>, starts: seq<int>)
    requires Inv(now, row, phases, starts) && Forward(row, after)
    ensures Inv(now, after, phases, starts)
  {
    forall m | m in phases ensures PhaseOK(phases[m], now, after) {
      assert PhaseOK(phases[m], now, row);
    }
    forall i | 0 <= i < |starts| ensures StartOK(starts[i], now, after) {
      assert StartOK(starts[i], now, row);
    }
  }

  lemma TimePasses(now: int, later: int, row: Row, phases: map<nat, Phase>, starts: seq<int>)
    requires Inv(now, row, phases, starts) && now <= later
    ensures Inv(later, row, phases, starts)
  {
    forall m | m in phases ensures PhaseOK(phases[m], later, row) {
      assert PhaseOK(phases[m], now, row);
    }
    forall i | 0 <= i < |starts| ensures StartOK(starts[i], later, row) {
      assert StartOK(starts[i], now, row);
    }
  }

  /** A won claim: everything that ever started did so five minutes before it, and every slot
      owned so far ends before it. */
  lemma ClaimKeepsInvariant(
    now: int, row: Row, phases: map<nat, Phase>, starts: seq<int>, m: nat, after: Row
  )
    requires Inv(now, row, phases, starts)
    requires m in phases && phases[m].Claiming? && row.enabled && row.plan[0] == phases[m].expected
    requires after.enabled && after.plan == phases[m].plan
    ensures Forward(row, after)
    ensures Inv(now, after, phases[m := Claimed(phases[m].plan, phases[m].claimAt)], starts)
  {
    var p := Claimed(phases[m].plan, phases[m].claimAt);
    var next := phases[m := p];
    assert PhaseOK(phases[m], now, row);
    RowMoves(now, row, after, phases, starts);
    forall n, i | n in next && 0 <= i < |starts| ensures Clear(starts[i], next[n]) {
      assert StartOK(starts[i], now, row);
      if n != m { assert Clear(starts[i], phases[n]); }
    }
    ClaimKeepsDisjoint(now, row, phases, starts, m);
    ClaimKeepsBehind(now, row, phases, starts, m);
  }

  lemma ClaimKeepsDisjoint(now: int, row: Row, phases: map<nat, Phase>, starts: seq<int>, m: nat)
    requires Inv(now, row, phases, starts)
    requires m in phases && phases[m].Claiming? && row.enabled && row.plan[0] == phases[m].expected
    ensures var next := phases[m := Claimed(phases[m].plan, phases[m].claimAt)];
      forall k, n :: k in next && n in next && k != n ==> Disjoint(next[k], next[n])
  {
    var p := Claimed(phases[m].plan, phases[m].claimAt);
    var next := phases[m := p];
    assert PhaseOK(phases[m], now, row);
    forall n | n in phases && n != m ensures Disjoint(p, phases[n]) && Disjoint(phases[n], p) {
      assert PhaseOK(phases[n], now, row);
    }
    forall k, n | k in next && n in next && k != n ensures Disjoint(next[k], next[n]) {
      if k != m && n != m { assert Disjoint(phases[k], phases[n]); }
    }
  }

  lemma ClaimKeepsBehind(now: int, row: Row, phases: map<nat, Phase>, starts: seq<int>, m: nat)
    requires Inv(now, row, phases, starts)
    requires m in phases && phases[m].Claiming? && row.enabled && row.plan[0] == phases[m].expected
    ensures var next := phases[m := Claimed(phases[m].plan, phases[m].claimAt)];
      forall k, n :: k in next && n in next ==> Behind(next[k], next[n], now)
  {
    var next := phases[m := Claimed(phases[m].plan, phases[m].claimAt)];
    assert PhaseOK(phases[m], now, row);
    forall k, n | k in next && n in next ensures Behind(next[k], next[n], now) {
      if k != m { assert PhaseOK(phases[k], now, row); }
      if k != m && n != m { assert Behind(phases[k], phases[n], now); }
    }
  }

  /** A creator may start at a moment a claim owns, once the next run is five minutes away. */
  lemma StartKeepsInvariant(
    now: int, row: Row, phases: map<nat, Phase>, starts: seq<int>, m: nat, at: int, plan: seq<int>
  )
    requires Inv(now, row, phases, starts)
    requires m in phases && Pending(phases[m]) && phases[m].claimAt <= at <= now
    requires Reaches(row, at + MINIMUM_INTERVAL) && Stored(plan) && plan[0] <= now + WIDEST_GAP && Reaches(row, plan[0])
    requires AllBehind(Creating(at, plan), phases, m, now)
    requires forall i :: 0 <= i < |starts| ==> starts[i] < phases[m].plan[0]
    requires forall n :: n in phases && n != m ==> Clear(at, phases[n])
    ensures Inv(now, row, phases[m := Creating(at, plan)], starts + [at])
  {
    var next, more := phases[m := Creating(at, plan)], starts + [at];
    PhaseMoves(now, row, phases, starts, m, Creating(at, plan));
    assert PhaseOK(phases[m], now, row);
    forall i | 0 < i < |more| ensures SpacedAt(more, i) {
      if i < |starts| {
        assert SpacedAt(starts, i);
      } else {
        assert Clear(starts[i - 1], phases[m]);
      }
    }
    forall n, i | n in next && 0 <= i < |more| ensures Clear(more[i], next[n]) {
      if i < |starts| { assert Clear(starts[i], next[n]); }
    }
  }

  /** Without a correction: the plan installed by the claim already leaves five minutes. */
  lemma DirectStart(now: int, row: Row, phases: map<nat, Phase>, starts: seq<int>, m: nat)
    requires Inv(now, row, phases, starts)
    requires m in phases && phases[m].Claimed? && now + MINIMUM_INTERVAL <= phases[m].plan[0]
    ensures Inv(now, row, phases[m := Creating(now, phases[m].plan)], starts + [now])
  {
    var p := phases[m];
    assert PhaseOK(p, now, row);
    forall i | 0 <= i < |starts| ensures starts[i] < p.plan[0] {
      assert StartOK(starts[i], now, row);
    }
    forall n | n in phases && n != m ensures Clear(now, phases[n]) {
      assert Disjoint(p, phases[n]) && PhaseOK(phases[n], now, row);
    }
    OthersAreBehind(now, row, phases, starts, m, Creating(now, p.plan));
    StartKeepsInvariant(now, row, phases, starts, m, now, p.plan);
  }

  /** With a correction: winning it shows that nobody has claimed since. */
  lemma CorrectedStart(
    now: int, row: Row, phases: map<nat, Phase>, starts: seq<int>, m: nat, after: Row
  )
    requires Inv(now, row, phases, starts)
    requires m in phases && phases[m].Correcting? && row.enabled && row.plan[0] == phases[m].plan[0]
    requires after.enabled && after.plan == ShiftedTo(phases[m].plan, phases[m].actualAt + MINIMUM_INTERVAL)
    ensures Forward(row, after)
    ensures Inv(now, after, phases[m := Creating(phases[m].actualAt, after.plan)], starts + [phases[m].actualAt])
  {
    var p := phases[m];
    assert PhaseOK(p, now, row);
    ShiftKeepsGaps(p.plan, p.actualAt + MINIMUM_INTERVAL);
    RowMoves(now, row, after, phases, starts);
    forall i | 0 <= i < |starts| ensures starts[i] < p.plan[0] {
      assert StartOK(starts[i], now, row);
    }
    forall n | n in phases && n != m
      ensures Clear(p.actualAt, phases[n]) && Behind(Creating(p.actualAt, after.plan), phases[n], now)
    {
      assert Disjoint(p, phases[n]) && PhaseOK(phases[n], now, row);
    }
    StartKeepsInvariant(now, after, phases, starts, m, p.actualAt, after.plan);
  }

  /** No creator can start before `until`: the next run is not earlier, and every pending claim
      is either later or out of date. */
  ghost predicate Quiet(until: int, now: int, row: Row, phases: map<nat, Phase>) {
    && (row.enabled ==> row.plan != [] && until <= row.plan[0])
    && (forall n :: n in phases ==> QuietPhase(until, now, phases[n]))
  }

  ghost predicate QuietPhase(until: int, now: int, p: Phase) {
    Pending(p) && p.plan != [] ==> until <= p.claimAt || (p.plan[0] <= now && p.plan[0] < until)
  }

  /** Postponing the next run from `expected` leaves no claim that could still start. */
  lemma PostponedIsQuiet(now: int, row: Row, phases: map<nat, Phase>, starts: seq<int>, m: nat, after: Row)
    requires Inv(now, row, phases, starts) && m in phases && phases[m].CoolingDown?
    requires row.enabled && row.plan[0] == phases[m].expected && after.enabled && after.plan == phases[m].plan
    ensures Quiet(phases[m].plan[0], now, after, phases)
  {
    var p := phases[m];
    assert PhaseOK(p, now, row);
    forall n | n in phases ensures QuietPhase(p.plan[0], now, phases[n]) {
      assert PhaseOK(phases[n], now, row) && Behind(p, phases[n], now);
    }
  }

  lemma TimeStaysQuiet(until: int, now: int, later: int, row: Row, phases: map<nat, Phase>)
    requires Quiet(until, now, row, phases) && now <= later
    ensures Quiet(until, later, row, phases)
  {
    forall n | n in phases ensures QuietPhase(until, later, phases[n]) {
      assert QuietPhase(until, now, phases[n]);
    }
  }

  /** A claim becomes pending only by winning its compare-and-swap. */
  ghost predicate TurnClaims(was: Phase, p: Phase, row: Row) {
    Pending(p) ==>
      || (Pending(was) && p.plan == was.plan && p.claimAt == was.claimAt)
      || (was.Claiming? && p.claimAt == was.claimAt && row.enabled && row.plan != [] && row.plan[0] == was.expected)
  }

  /** A creator starts only from a pending claim, five minutes before the next run it relies on
      or by winning a correction. */
  ghost predicate TurnStarts(was: Phase, now: int, row: Row, starts: seq<int>, after: seq<int>) {
    || after == starts
    || (was.Claimed? && was.plan != [] && after == starts + [now] && now + MINIMUM_INTERVAL <= was.plan[0])
    || (was.Correcting? && was.plan != [] && after == starts + [was.actualAt]
      && row.enabled && row.plan != [] && row.plan[0] == was.plan[0])
  }

  lemma TurnIsQuiet(
    until: int, now: int, row: Row, phases: map<nat, Phase>, starts: seq<int>, m: nat, p: Phase, after: Row, more: seq<int>
  )
    requires Inv(now, row, phases, starts) && Quiet(until, now, row, phases) && Forward(row, after) && m in phases
    requires TurnClaims(phases[m], p, row) && TurnStarts(phases[m], now, row, starts, more)
    ensures Quiet(until, now, after, phases[m := p])
    ensures more == starts || (|more| == |starts| + 1 && until <= more[|starts|])
  {
    var next := phases[m := p];
    assert PhaseOK(phases[m], now, row) && QuietPhase(until, now, phases[m]);
    forall n | n in next ensures QuietPhase(until, now, next[n]) {
      if n != m { assert QuietPhase(until, now, phases[n]); }
    }
  }

  /** A cooldown that was stored: how many starts came before it, and when it ends. */
  datatype Cooldown = Cooldown(startsBefore: nat, until: int)

  ghost predicate Respects(c: Cooldown, now: int, row: Row, phases: map<nat, Phase>, starts: seq<int>) {
    && Quiet(c.until, now, row, phases) && c.startsBefore <= |starts|
    && forall i :: c.startsBefore <= i < |starts| ==> c.until <= starts[i]
  }

  ghost predicate AllRespected(cooldowns: seq<Cooldown>, now: int, row: Row, phases: map<nat, Phase>, starts: seq<int>) {
    forall k :: 0 <= k < |cooldowns| ==> Respects(cooldowns[k], now, row, phases, starts)
  }

  lemma TimeRespects(cooldowns: seq<Cooldown>, now: int, later: int, row: Row, phases: map<nat, Phase>, starts: seq<int>)
    requires AllRespected(cooldowns, now, row, phases, starts) && now <= later
    ensures AllRespected(cooldowns, later, row, phases, starts)
  {
    forall k | 0 <= k < |cooldowns| ensures Respects(cooldowns[k], later, row, phases, starts) {
      assert Respects(cooldowns[k], now, row, phases, starts);
      TimeStaysQuiet(cooldowns[k].until, now, later, row, phases);
    }
  }

  lemma TurnRespects(
    cooldowns: seq<Cooldown>, now: int, row: Row, phases: map<nat, Phase>, starts: seq<int>, m: nat, p: Phase, after: Row, more: seq<int>
  )
    requires Inv(now, row, phases, starts) && AllRespected(cooldowns, now, row, phases, starts) && Forward(row, after)
    requires m in phases && TurnClaims(phases[m], p, row) && TurnStarts(phases[m], now, row, starts, more)
    ensures AllRespected(cooldowns, now, after, phases[m := p], more)
  {
    forall k | 0 <= k < |cooldowns| ensures Respects(cooldowns[k], now, after, phases[m := p], more) {
      assert Respects(cooldowns[k], now, row, phases, starts);
      TurnIsQuiet(cooldowns[k].until, now, row, phases, starts, m, p, after, more);
    }
  }

  lemma IdleRespects(cooldowns: seq<Cooldown>, now: int, row: Row, phases: map<nat, Phase>, starts: seq<int>, m: nat)
    requires AllRespected(cooldowns, now, row, phases, starts)
    ensures AllRespected(cooldowns, now, row, phases[m := Idle], starts)
  {
    var next := phases[m := Idle];
    forall k | 0 <= k < |cooldowns| ensures Respects(cooldowns[k], now, row, next, starts) {
      assert Respects(cooldowns[k], now, row, phases, starts);
      forall n | n in next ensures QuietPhase(cooldowns[k].until, now, next[n]) {
        if n != m { assert QuietPhase(cooldowns[k].until, now, phases[n]); }
      }
    }
  }

  // ---- Plans of a due row ------------------------------------------------------------------

  method OverduePlan(now: int, draws: Draws) returns (r: Result<seq<int>, PlanError>)
    ensures r.Success? <==> ValidDraws(draws)
    ensures r.Success? ==> FreshPlan(r.value, now, draws) && Stored(r.value) && now + MINIMUM_INTERVAL <= r.value[0]
  {
    r := GeneratePlan(now, draws);
    if r.Success? { FreshIsStored(r.value, now, draws); }
  }

  /** The stored plan moved rigidly to the earliest permitted time. */
  method PostponedPlan(plan: seq<int>, earliest: int, draws: Draws) returns (r: Result<seq<int>, PlanError>)
    requires Stored(plan)
    ensures r == Success(ShiftedTo(plan, earliest))
    ensures Stored(r.value) && earliest <= r.value[0]
  {
    ShiftKeepsGaps(plan, earliest);
    assert Usable(plan);
    r := ShiftCurrentPlan(plan, plan[0], earliest, draws);
    assert r == Success(ShiftedTo(plan, earliest)) by { DueWhole(plan); }
  }

  /** What a claim installs: the rest of the plan, shifted if it would come within five
      minutes, or a fresh plan once it is used up. */
  ghost predicate NextPlan(plan: seq<int>, now: int, draws: Draws, next: seq<int>)
    requires plan != []
  {
    if Keeps(plan[1..]) then next == ShiftedTo(plan[1..], now + MINIMUM_INTERVAL) else FreshPlan(next, now, draws)
  }

  method ClaimPlan(plan: seq<int>, now: int, draws: Draws) returns (r: Result<seq<int>, PlanError>)
    requires Stored(plan) && plan[0] <= now
    ensures r.Success? <==> Keeps(plan[1..]) || ValidDraws(draws)
    ensures r.Success? ==> OwnsSlot(r.value, now) && NextPlan(plan, now, draws, r.value)
  {
    DueTail(plan);
    r := PlanAfterClaim(plan, plan[0], now, draws);
    if r.Success? { ClaimPlanIsStored(plan, now, r.value, draws); }
  }

  /** When a slot may be claimed: due, within the grace, five minutes after the last attempt. */
  ghost predicate DueNow(schedule: Row, now: int, overdueGrace: nat) {
    && schedule.enabled && schedule.plan != []
    && schedule.plan[0] <= now <= schedule.plan[0] + overdueGrace
    && (schedule.lastAttempted.Some? ==> schedule.lastAttempted.value + MINIMUM_INTERVAL <= now)
  }

  /** The slot was missed by more than the grace. */
  ghost predicate Overdue(schedule: Row, now: int, overdueGrace: nat) {
    schedule.enabled && schedule.plan != [] && now - schedule.plan[0] > overdueGrace
  }

  /** It is due, but the last attempt is less than five minutes old. */
  ghost predicate TooSoon(schedule: Row, now: int, overdueGrace: nat) {
    && schedule.enabled && schedule.plan != []
    && schedule.plan[0] <= now <= schedule.plan[0] + overdueGrace
    && schedule.lastAttempted.Some? && now < schedule.lastAttempted.value + MINIMUM_INTERVAL
  }

  /** A missed slot is replaced by a fresh plan; one that comes too soon is shifted. */
  ghost predicate Postponed(schedule: Row, now: int, overdueGrace: nat, draws: Draws, expected: int, plan: seq<int>) {
    && schedule.plan != [] && expected == schedule.plan[0]
    && (Overdue(schedule, now, overdueGrace) ==> FreshPlan(plan, now, draws))
    && (TooSoon(schedule, now, overdueGrace) ==>
      plan == ShiftedTo(schedule.plan, schedule.lastAttempted.value + MINIMUM_INTERVAL))
  }

  /** The row after a compare-and-swap that reached the database. */
  ghost function Swapped(row: Row, expected: int, plan: seq<int>): Row {
    if row.enabled && row.plan != [] && row.plan[0] == expected then row.(plan := plan) else row
  }

  /** What is decided outside the manager in one of its steps: the grace it is run with, the
      draws, whether its context has been cancelled, how the repository call goes and how the
      creator returns. */
  datatype Choices = Choices(grace: nat, draws: Draws, cancelled: bool, failed: bool, applied: bool, outcome: Outcome)

  /** The row after a write that succeeds, or fails with or without having been applied. */
  ghost function Written(before: Row, after: Row, c: Choices): Row {
    if !c.failed || c.applied then after else before
  }

  /** A creator that has returned: which phase follows, and what it leaves in the row. */
  ghost predicate StepsAfterwards(was: Phase, p: Phase, before: Row, after: Row, now: int, c: Choices) {
    match was
    case Creating(at, plan) => p == Recording(at, plan, c.outcome) && after == before
    case Recording(at, plan, outcome) =>
      && p == (if outcome.Created? then Idle else Reacting(plan, outcome.rateLimited, outcome.disable))
      && after == if before.enabled then Written(before, before.(lastAttempted := Some(at)), c) else before
    case Reacting(plan, rateLimited, disable) =>
      && after == before
      && (if rateLimited && ValidDraws(c.draws)
          then p.CoolingDown? && plan != [] && p.expected == plan[0] && p.disable == disable
            && p.plan != [] && p.plan[0] == now + RATE_LIMIT_COOLDOWN
          else p == if disable then Disabling else Idle)
    case CoolingDown(expected, plan, disable) =>
      p == (if disable then Disabling else Idle) && after == Written(before, Swapped(before, expected, plan), c)
    case Disabling => p == Idle && after == Written(before, Row(false, [], before.lastAttempted), c)
    case _ => false
  }

  /** Up to the creator: reading the row, deciding, claiming, starting. */
  ghost predicate StepsTowards(was: Phase, p: Phase, before: Row, after: Row, now: int, c: Choices) {
    match was
    case Idle => p == Due(before) && after == before
    case Due(schedule) => after == before && Decides(schedule, now, c, p)
    case Rescheduling(expected, plan) => p == Idle && after == Written(before, Swapped(before, expected, plan), c)
    case Claiming(expected, plan, claimAt) =>
      var won := !c.failed && before.enabled && before.plan != [] && before.plan[0] == expected;
      p == (if won then Claimed(plan, claimAt) else Idle) && (won ==> after == Row(true, plan, Some(claimAt)))
    case Claimed(plan, claimAt) =>
      && after == before && plan != []
      && p == (if c.cancelled then Idle
          else if now + MINIMUM_INTERVAL <= plan[0] then Creating(now, plan) else Correcting(plan, claimAt, now))
    case Correcting(plan, claimAt, actualAt) =>
      && plan != []
      && var shifted := ShiftedTo(plan, actualAt + MINIMUM_INTERVAL);
        var won := !c.failed && before.enabled && before.plan != [] && before.plan[0] == plan[0];
        && after == Written(before, Swapped(before, plan[0], shifted), c)
        && p == if won then Creating(actualAt, shifted) else Recording(actualAt, plan, Failed(false, false))
    case _ => false
  }

  /** A due row for which a plan can be made. */
  ghost predicate Claims(schedule: Row, now: int, c: Choices) {
    DueNow(schedule, now, c.grace) && (Keeps(schedule.plan[1..]) || ValidDraws(c.draws))
  }

  /** The plan in force when the creator starts: the claimed one, five minutes away. */
  ghost predicate StartsWith(was: seq<int>, now: int, actualAt: int, c: Choices, plan: seq<int>)
    requires was != []
  {
    exists claimed | NextPlan(was, now, c.draws, claimed) :: plan == ShiftedTo(claimed, actualAt + MINIMUM_INTERVAL)
  }

  lemma NoShift(plan: seq<int>, earliest: int)
    ensures plan != [] && earliest <= plan[0] ==> ShiftedTo(plan, earliest) == plan
  {
  }

  ghost predicate Decides(schedule: Row, now: int, c: Choices, p: Phase) {
    if Claims(schedule, now, c) then
      p.Claiming? && p.expected == schedule.plan[0] && p.claimAt == now && NextPlan(schedule.plan, now, c.draws, p.plan)
    else if TooSoon(schedule, now, c.grace) || (Overdue(schedule, now, c.grace) && ValidDraws(c.draws)) then
      p.Rescheduling? && Postponed(schedule, now, c.grace, c.draws, p.expected, p.plan)
    else
      p == Idle
  }

  /** A rate limit that is not terminal, while the next run is still the creator's own. */
  ghost predicate Postpones(plan: seq<int>, rateLimited: bool, disable: bool, before: Row, c: Choices) {
    && rateLimited && !disable && ValidDraws(c.draws)
    && before.enabled && before.plan != [] && plan != [] && before.plan[0] == plan[0]
  }

  ghost predicate CoolsDown(plan: seq<int>, before: Row, c: Choices) {
    c.outcome.Failed? && Postpones(plan, c.outcome.rateLimited, c.outcome.disable, before, c)
  }

  ghost predicate Answered(cools: bool, disable: bool, before: Row, after: Row, now: int) {
    if disable then after == Row(false, [], before.lastAttempted)
    else if cools then
      after.enabled && after.plan != [] && after.plan[0] == now + RATE_LIMIT_COOLDOWN && after.lastAttempted == before.lastAttempted
    else after == before
  }

  /** What an attempt at `at`, which relied on `plan`, leaves in the row. */
  ghost predicate Aftermath(plan: seq<int>, at: int, before: Row, after: Row, now: int, c: Choices) {
    var attempted := if before.enabled then before.(lastAttempted := Some(at)) else before;
    Answered(CoolsDown(plan, before, c), c.outcome.Failed? && c.outcome.disable, attempted, after, now)
  }

  /** A creator that starts is logged with its start boundary. */
  ghost function StartsAfter(starts: seq<int>, p: Phase): seq<int> {
    if p.Creating? then starts + [p.attemptedAt] else starts
  }

  lemma StepIsTurn(was: Phase, p: Phase, before: Row, after: Row, now: int, c: Choices, starts: seq<int>)
    requires StepsTowards(was, p, before, after, now, c) || StepsAfterwards(was, p, before, after, now, c)
    ensures TurnClaims(was, p, before) && TurnStarts(was, now, before, starts, StartsAfter(starts, p))
  {
  }

  // ---- The steps -------------------------------------------------------------------------

  /** One account's row, the clock and every manager process. `starts` logs the post-claim
      start boundary of every creator run. */
  class Scheduler {
    var now: int
    var row: Row
    var phases: map<nat, Phase>
    ghost var starts: seq<int>
    ghost var cooldowns: seq<Cooldown>

    ghost predicate Valid()
      reads this
    {
      Inv(now, row, phases, starts)
    }

    ghost predicate CooldownsHold()
      reads this
    {
      AllRespected(cooldowns, now, row, phases, starts)
    }

    /** A freshly enabled row (`SetEnabled`). */
    constructor (now: int, plan: seq<int>, draws: Draws)
      requires FreshPlan(plan, now, draws)
      ensures Valid() && CooldownsHold() && starts == [] && cooldowns == [] && row.enabled
    {
      FreshIsStored(plan, now, draws);
      this.now, row, phases, starts, cooldowns := now, Row(true, plan, None), map[], [], [];
    }

    method Elapse(later: int)
      requires Valid() && now <= later
      modifies this`now
      ensures Valid() && now == later
    {
      TimePasses(now, later, row, phases, starts);
      now := later;
    }

    method Move(m: nat, p: Phase)
      requires Valid() && PhaseOK(p, now, row)
      requires Pending(p) ==> m in phases && Pending(phases[m]) && p.claimAt == phases[m].claimAt && p.plan == phases[m].plan
      requires Started(p) ==> (m in phases && SameNext(p, phases[m])) || AllBehind(p, phases, m, now)
      modifies this`phases
      ensures Valid() && phases == old(phases)[m := p]
    {
      PhaseMoves(now, row, phases, starts, m, p);
      phases := phases[m := p];
    }

    /** A crash or a cancelled context, at any point. */
    method Abandon(m: nat)
      requires Valid()
      modifies this`phases
      ensures Valid() && phases == old(phases)[m := Idle]
    {
      Move(m, Idle);
    }

    /** Reading the row; by the time `processDue` looks at it, it may be stale. */
    method ListDue(m: nat)
      requires Valid()
      modifies this`phases
      ensures Valid() && phases == old(phases)[m := Due(row)]
    {
      Move(m, Due(row));
    }

    /** The decision part of `processDue`. */
    method Decide(m: nat, overdueGrace: nat, draws: Draws)
      requires Valid() && m in phases && phases[m].Due?
      modifies this`phases
      ensures Valid() && m in phases
      ensures phases == old(phases)[m := phases[m]] && (phases[m].Idle? || phases[m].Rescheduling? || phases[m].Claiming?)
      ensures var was, p := old(phases[m]).schedule, phases[m];
        && (p.Claiming? <==> DueNow(was, now, overdueGrace) && (Keeps(was.plan[1..]) || ValidDraws(draws)))
        && (p.Claiming? ==> p.expected == was.plan[0] && p.claimAt == now && NextPlan(was.plan, now, draws, p.plan))
        && (p.Rescheduling? <==> TooSoon(was, now, overdueGrace) || (Overdue(was, now, overdueGrace) && ValidDraws(draws)))
        && (p.Rescheduling? ==> Postponed(was, now, overdueGrace, draws, p.expected, p.plan))
    {
      var schedule := phases[m].schedule;
      assert PhaseOK(phases[m], now, row);
      if !schedule.enabled || now < schedule.plan[0] {
        Move(m, Idle);
        return;
      }
      var expected := schedule.plan[0];
      if now - expected > overdueGrace {
        var planned := OverduePlan(now, draws);
        Move(m, if planned.Failure? then Idle else Rescheduling(expected, planned.value));
        return;
      }
      if schedule.lastAttempted.Some? {
        var earliest := schedule.lastAttempted.value + MINIMUM_INTERVAL;
        if now < earliest {
          var planned := PostponedPlan(schedule.plan, earliest, draws);
          Move(m, if planned.Failure? then Idle else Rescheduling(expected, planned.value));
          return;
        }
      }
      var planned := ClaimPlan(schedule.plan, now, draws);
      Move(m, if planned.Failure? then Idle else Claiming(expected, planned.value, now));
    }

    /** `RescheduleAliasCreation`: replaces the plan if the next run is still the expected one.
        A failed call may or may not have reached the database. */
    method CompareAndSwap(expected: int, plan: seq<int>, failed: bool, applied: bool) returns (changed: bool)
      requires Valid() && Stored(plan) && expected < plan[0]
      modifies this`row
      ensures Valid() && Forward(old(row), row)
      ensures changed <==> !failed && old(row).enabled && old(row).plan[0] == expected
      ensures row == if !failed || applied then Swapped(old(row), expected, plan) else old(row)
    {
      changed := false;
      if row.enabled && row.plan[0] == expected && (!failed || applied) {
        RowMoves(now, row, row.(plan := plan), phases, starts);
        row := row.(plan := plan);
        changed := !failed;
      }
    }

    method Reschedule(m: nat, failed: bool, applied: bool)
      requires Valid() && m in phases && phases[m].Rescheduling?
      modifies this`row, this`phases
      ensures Valid() && Forward(old(row), row) && phases == old(phases)[m := Idle]
      ensures var p := old(phases[m]); row == if !failed || applied then Swapped(old(row), p.expected, p.plan) else old(row)
    {
      var p := phases[m];
      assert PhaseOK(p, now, row);
      var changed := CompareAndSwap(p.expected, p.plan, failed, applied);
      Move(m, Idle);
    }

    /** `ClaimAliasCreation`. */
    method Claim(m: nat, failed: bool, applied: bool)
      requires Valid() && m in phases && phases[m].Claiming?
      modifies this`row, this`phases
      ensures Valid() && Forward(old(row), row) && m in phases
      ensures phases[m].Claimed? <==> !failed && old(row).enabled && old(row).plan[0] == old(phases[m]).expected
      ensures phases[m].Claimed? ==> row == Row(true, old(phases[m]).plan, Some(old(phases[m]).claimAt))
      ensures failed ==> row.plan == (if applied then Swapped(old(row), old(phases[m]).expected, old(phases[m]).plan) else old(row)).plan
      ensures phases == old(phases)[m := phases[m]] && (phases[m].Claimed? || phases[m].Idle?)
      ensures phases[m].Claimed? ==> phases[m] == Claimed(old(phases[m]).plan, old(phases[m]).claimAt)
    {
      var p := phases[m];
      if !row.enabled || row.plan[0] != p.expected || (failed && !applied) {
        Move(m, Idle);
        return;
      }
      var claimed := Row(true, p.plan, Some(p.claimAt));
      ClaimKeepsInvariant(now, row, phases, starts, m, claimed);
      row, phases := claimed, phases[m := Claimed(p.plan, p.claimAt)];
      if failed {
        Move(m, Idle);
      }
    }

    /** Reads the clock again after the claim and starts the creator, unless the plan has come
        within five minutes and must be corrected first. */
    method Begin(m: nat, cancelled: bool)
      requires Valid() && m in phases && phases[m].Claimed?
      modifies this`phases, this`starts
      ensures Valid() && m in phases
      ensures starts == if phases[m].Creating? then old(starts) + [now] else old(starts)
      ensures phases[m].Creating? <==> !cancelled && now + MINIMUM_INTERVAL <= old(phases[m]).plan[0]
      ensures phases == old(phases)[m := phases[m]]
      ensures phases[m].Creating? ==> phases[m] == Creating(now, old(phases[m]).plan)
      ensures !phases[m].Creating? ==>
        phases[m] == if cancelled then Idle else Correcting(old(phases[m]).plan, old(phases[m]).claimAt, now)
    {
      var p := phases[m];
      assert PhaseOK(p, now, row);
      if cancelled {
        Move(m, Idle);
        return;
      }
      var actualAt := now;
      if actualAt > p.claimAt && p.plan[0] < actualAt + MINIMUM_INTERVAL {
        Move(m, Correcting(p.plan, p.claimAt, actualAt));
        return;
      }
      DirectStart(now, row, phases, starts, m);
      phases := phases[m := Creating(actualAt, p.plan)];
      starts := starts + [actualAt];
    }

    /** The compare-and-swap of `correctPlanAfterClaim`. */
    method Correct(m: nat, failed: bool, applied: bool)
      requires Valid() && m in phases && phases[m].Correcting?
      modifies this`row, this`phases, this`starts
      ensures Valid() && Forward(old(row), row) && m in phases
      ensures starts == if phases[m].Creating? then old(starts) + [old(phases[m]).actualAt] else old(starts)
      ensures phases[m].Creating? <==> !failed && old(row).enabled && old(row).plan[0] == old(phases[m]).plan[0]
      ensures var p := old(phases[m]); var shifted := ShiftedTo(p.plan, p.actualAt + MINIMUM_INTERVAL);
        && row == (if !failed || applied then Swapped(old(row), p.plan[0], shifted) else old(row))
        && phases == old(phases)[m :=
          if phases[m].Creating? then Creating(p.actualAt, shifted) else Recording(p.actualAt, p.plan, Failed(false, false))]
    {
      var p := phases[m];
      assert PhaseOK(p, now, row);
      var shifted := ShiftTo(p.plan, p.actualAt + MINIMUM_INTERVAL);
      ShiftKeepsGaps(p.plan, p.actualAt + MINIMUM_INTERVAL);
      if failed || !row.enabled || row.plan[0] != p.plan[0] {
        var changed := CompareAndSwap(p.plan[0], shifted, failed, applied);
        OthersAreBehind(now, row, phases, starts, m, Recording(p.actualAt, p.plan, Failed(false, false)));
        Move(m, Recording(p.actualAt, p.plan, Failed(false, false)));
        return;
      }
      CorrectedStart(now, row, phases, starts, m, row.(plan := shifted));
      row := row.(plan := shifted);
      phases := phases[m := Creating(p.actualAt, shifted)];
      starts := starts + [p.actualAt];
    }

    /** The creator returns. */
    method Return(m: nat, outcome: Outcome)
      requires Valid() && m in phases && phases[m].Creating?
      modifies this`phases
      ensures Valid() && phases == old(phases)[m := Recording(old(phases[m]).attemptedAt, old(phases[m]).plan, outcome)]
    {
      var p := phases[m];
      assert PhaseOK(p, now, row);
      Move(m, Recording(p.attemptedAt, p.plan, outcome));
    }

    /** `RecordAliasCreationSuccess` and `RecordAliasCreationFailure`; an error leaves open whether
        the attempt was recorded. */
    method Record(m: nat, failed: bool, applied: bool)
      requires Valid() && m in phases && phases[m].Recording?
      modifies this`row, this`phases
      ensures Valid() && Forward(old(row), row)
      ensures row == if old(row).enabled && (!failed || applied) then old(row).(lastAttempted := Some(old(phases[m]).attemptedAt)) else old(row)
      ensures m in phases && phases == old(phases)[m := phases[m]]
      ensures phases[m] == var p := old(phases[m]);
        if p.outcome.Created? then Idle else Reacting(p.plan, p.outcome.rateLimited, p.outcome.disable)
    {
      var p := phases[m];
      assert PhaseOK(p, now, row);
      if row.enabled && (!failed || applied) {
        var recorded := row.(lastAttempted := Some(p.attemptedAt));
        RowMoves(now, row, recorded, phases, starts);
        row := recorded;
      }
      Move(m, if p.outcome.Created? then Idle else Reacting(p.plan, p.outcome.rateLimited, p.outcome.disable));
    }

    /** After a failure: a rate limit postpones the whole plan past the provider's window. */
    method React(m: nat, draws: Draws)
      requires Valid() && m in phases && phases[m].Reacting?
      modifies this`phases
      ensures Valid() && m in phases
      ensures phases == old(phases)[m := phases[m]]
      ensures phases[m].CoolingDown? <==> old(phases[m]).rateLimited && ValidDraws(draws)
      ensures phases[m].CoolingDown? ==> phases[m].plan != [] && phases[m].plan[0] == now + RATE_LIMIT_COOLDOWN
      ensures phases[m].CoolingDown? ==>
        phases[m].expected == old(phases[m]).plan[0] && phases[m].disable == old(phases[m]).disable
      ensures !phases[m].CoolingDown? ==> phases[m] == if old(phases[m]).disable then Disabling else Idle
    {
      var p := phases[m];
      assert PhaseOK(p, now, row);
      if p.rateLimited {
        var cooldown := NewPlanStartingAt(now + RATE_LIMIT_COOLDOWN, draws);
        if cooldown.Success? {
          Move(m, CoolingDown(p.plan[0], cooldown.value, p.disable));
          return;
        }
      }
      Move(m, if p.disable then Disabling else Idle);
    }

    method CoolDown(m: nat, failed: bool, applied: bool)
      requires Valid() && m in phases && phases[m].CoolingDown?
      modifies this`row, this`phases
      ensures Valid() && Forward(old(row), row)
      ensures var p := old(phases[m]);
        && row == (if !failed || applied then Swapped(old(row), p.expected, p.plan) else old(row))
        && phases == old(phases)[m := if p.disable then Disabling else Idle]
        && (row != old(row) ==> p.plan != [] && Quiet(p.plan[0], now, row, phases))
    {
      var p := phases[m];
      assert PhaseOK(p, now, row);
      if row.enabled && row.plan[0] == p.expected { PostponedIsQuiet(now, row, phases, starts, m, row.(plan := p.plan)); }
      var changed := CompareAndSwap(p.expected, p.plan, failed, applied);
      Move(m, if p.disable then Disabling else Idle);
    }

    /** `DisableAliasCreation`; an error leaves open whether it took effect. */
    method Disable(m: nat, failed: bool, applied: bool)
      requires Valid() && m in phases && phases[m].Disabling?
      modifies this`row, this`phases
      ensures Valid() && Forward(old(row), row) && phases == old(phases)[m := Idle]
      ensures row == if failed && !applied then old(row) else Row(false, [], old(row).lastAttempted)
    {
      if !failed || applied {
        var disabled := Row(false, [], row.lastAttempted);
        RowMoves(now, row, disabled, phases, starts);
        row := disabled;
      }
      Move(m, Idle);
    }

    /** One step of one manager. */
    method Step(m: nat, c: Choices)
      requires Valid() && m in phases
      modifies this`row, this`phases, this`starts
      ensures Valid() && Forward(old(row), row)
      ensures m in phases && phases == old(phases)[m := phases[m]]
      ensures var was := old(phases)[m];
        StepsTowards(was, phases[m], old(row), row, now, c) || StepsAfterwards(was, phases[m], old(row), row, now, c)
      ensures starts == StartsAfter(old(starts), phases[m])
      ensures var was := old(phases)[m];
        was.CoolingDown? && row != old(row) ==> was.plan != [] && Quiet(was.plan[0], now, row, phases)
    {
      if Started(phases[m]) || phases[m].Disabling? {
        StepAfterwards(m, c);
      } else {
        StepTowards(m, c);
      }
    }

    /** Up to the start of the creator. */
    method StepTowards(m: nat, c: Choices)
      requires Valid() && m in phases && !Started(phases[m]) && !phases[m].Disabling?
      modifies this`row, this`phases, this`starts
      ensures Valid() && Forward(old(row), row)
      ensures m in phases && phases == old(phases)[m := phases[m]]
      ensures StepsTowards(old(phases)[m], phases[m], old(row), row, now, c)
      ensures starts == StartsAfter(old(starts), phases[m])
    {
      assert PhaseOK(phases[m], now, row);
      match phases[m] {
        case Idle => ListDue(m);
        case Due(_) => Decide(m, c.grace, c.draws);
        case Rescheduling(_, _) => Reschedule(m, c.failed, c.applied);
        case Claiming(_, _, _) => Claim(m, c.failed, c.applied);
        case Claimed(_, _) => Begin(m, c.cancelled);
        case Correcting(_, _, _) => Correct(m, c.failed, c.applied);
      }
    }

    /** Once the creator runs or has returned, nothing is claimed or started. */
    method StepAfterwards(m: nat, c: Choices)
      requires Valid() && m in phases && (Started(phases[m]) || phases[m].Disabling?)
      modifies this`row, this`phases
      ensures Valid() && Forward(old(row), row)
      ensures m in phases && phases == old(phases)[m := phases[m]] && !Pending(phases[m]) && !phases[m].Creating?
      ensures StepsAfterwards(old(phases)[m], phases[m], old(row), row, now, c)
      ensures var was := old(phases)[m];
        was.CoolingDown? && row != old(row) ==> was.plan != [] && Quiet(was.plan[0], now, row, phases)
    {
      match phases[m] {
        case Creating(_, _) => Return(m, c.outcome);
        case Recording(_, _, _) => Record(m, c.failed, c.applied);
        case Reacting(_, _, _) => React(m, c.draws);
        case CoolingDown(_, _, _) => CoolDown(m, c.failed, c.applied);
        case Disabling => Disable(m, c.failed, c.applied);
      }
    }

    /** `processDue` on a row just read, when nobody interferes and every write succeeds: a due
        row is claimed and its creator started exactly once, five minutes before the next run;
        a missed or premature one is rescheduled; otherwise nothing happens. */
    method ProcessDue(m: nat, c: Choices, actualAt: int, returnedAt: int) returns (ghost plan: seq<int>)
      requires Valid() && m in phases && phases[m] == Due(row) && row.enabled && now <= actualAt <= returnedAt
      requires !c.failed && !c.cancelled
      modifies this`now, this`row, this`phases, this`starts
      ensures Valid() && phases == old(phases)[m := Idle]
      ensures starts == if Claims(old(row), old(now), c) then old(starts) + [actualAt] else old(starts)
      ensures if Claims(old(row), old(now), c)
        then StartsWith(old(row).plan, old(now), actualAt, c, plan)
          && Aftermath(plan, actualAt, Row(true, plan, Some(old(now))), row, returnedAt, c)
          && (CoolsDown(plan, Row(true, plan, Some(old(now))), c) ==> Quiet(returnedAt + RATE_LIMIT_COOLDOWN, now, row, phases))
        else if TooSoon(old(row), old(now), c.grace) || (Overdue(old(row), old(now), c.grace) && ValidDraws(c.draws))
        then row == old(row).(plan := plan) && Postponed(old(row), old(now), c.grace, c.draws, old(row).plan[0], plan)
        else row == old(row)
    {
      plan := row.plan;
      Decide(m, c.grace, c.draws);
      if phases[m].Claiming? {
        plan := ClaimAndFinish(m, c, actualAt, returnedAt);
      } else if phases[m].Rescheduling? {
        plan := phases[m].plan;
        Reschedule(m, c.failed, c.applied);
      }
    }

    /** From a decision to claim to the end. */
    method ClaimAndFinish(m: nat, c: Choices, actualAt: int, returnedAt: int) returns (ghost plan: seq<int>)
      requires Valid() && m in phases && phases[m].Claiming? && now <= actualAt <= returnedAt && !c.failed && !c.cancelled
      requires row.enabled && row.plan[0] == phases[m].expected
      modifies this`now, this`row, this`phases, this`starts
      ensures Valid() && phases == old(phases)[m := Idle] && starts == old(starts) + [actualAt]
      ensures plan == ShiftedTo(old(phases[m]).plan, actualAt + MINIMUM_INTERVAL)
      ensures var claimed := Row(true, plan, Some(old(phases[m]).claimAt));
        && Aftermath(plan, actualAt, claimed, row, returnedAt, c)
        && (CoolsDown(plan, claimed, c) ==> Quiet(returnedAt + RATE_LIMIT_COOLDOWN, now, row, phases))
    {
      plan := ClaimAndStart(m, c, actualAt);
      Elapse(returnedAt);
      FinishAttempt(m, c);
    }

    method ClaimAndStart(m: nat, c: Choices, actualAt: int) returns (ghost plan: seq<int>)
      requires Valid() && m in phases && phases[m].Claiming? && now <= actualAt && !c.failed && !c.cancelled
      requires row.enabled && row.plan[0] == phases[m].expected
      modifies this`now, this`row, this`phases, this`starts
      ensures Valid() && now == actualAt
      ensures plan == ShiftedTo(old(phases[m]).plan, actualAt + MINIMUM_INTERVAL)
      ensures phases == old(phases)[m := Creating(actualAt, plan)] && starts == old(starts) + [actualAt]
      ensures row == Row(true, plan, Some(old(phases[m]).claimAt))
    {
      Claim(m, c.failed, c.applied);
      Elapse(actualAt);
      plan := StartCreator(m, c);
    }

    /** Whether or not the plan must be corrected first, the creator starts. */
    method StartCreator(m: nat, c: Choices) returns (ghost plan: seq<int>)
      requires Valid() && m in phases && phases[m].Claimed? && !c.failed && !c.cancelled
      requires row.enabled && row.plan == phases[m].plan
      modifies this`row, this`phases, this`starts
      ensures Valid()
      ensures plan == ShiftedTo(old(phases[m]).plan, now + MINIMUM_INTERVAL)
      ensures phases == old(phases)[m := Creating(now, plan)] && starts == old(starts) + [now]
      ensures row == old(row).(plan := plan)
    {
      plan := ShiftedTo(phases[m].plan, now + MINIMUM_INTERVAL);
      NoShift(phases[m].plan, now + MINIMUM_INTERVAL);
      Begin(m, c.cancelled);
      if phases[m].Correcting? {
        Correct(m, c.failed, c.applied);
      }
    }

    /** From the creator's return to the end of `processDue`, when nobody interferes and every
        write succeeds: a rate limit has been answered by a stored cooldown, a terminal failure
        by a disabled row, and anything else by the attempt time alone. */
    method FinishAttempt(m: nat, c: Choices)
      requires Valid() && m in phases && phases[m].Creating? && !c.failed
      modifies this`row, this`phases
      ensures Valid() && phases == old(phases)[m := Idle]
      ensures var p := old(phases[m]);
        Aftermath(p.plan, p.attemptedAt, old(row), row, now, c) && (CoolsDown(p.plan, old(row), c) ==> Quiet(now + RATE_LIMIT_COOLDOWN, now, row, phases))
    {
      StepAfterwards(m, c);
      ReportAttempt(m, c);
    }

    method ReportAttempt(m: nat, c: Choices)
      requires Valid() && m in phases && phases[m].Recording? && phases[m].outcome == c.outcome && !c.failed
      modifies this`row, this`phases
      ensures Valid() && phases == old(phases)[m := Idle]
      ensures var p := old(phases[m]);
        Aftermath(p.plan, p.attemptedAt, old(row), row, now, c) && (CoolsDown(p.plan, old(row), c) ==> Quiet(now + RATE_LIMIT_COOLDOWN, now, row, phases))
    {
      StepAfterwards(m, c);
      if phases[m].Reacting? {
        AnswerFailure(m, c);
      }
    }

    method AnswerFailure(m: nat, c: Choices)
      requires Valid() && m in phases && phases[m].Reacting? && !c.failed
      modifies this`row, this`phases
      ensures Valid() && phases == old(phases)[m := Idle]
      ensures var p := old(phases[m]); var cools := Postpones(p.plan, p.rateLimited, p.disable, old(row), c);
        && Answered(cools, p.disable, old(row), row, now)
        && (cools ==> Quiet(now + RATE_LIMIT_COOLDOWN, now, row, phases))
    {
      StepAfterwards(m, c);
      if phases[m].CoolingDown? {
        StoreCooldown(m, c);
      } else if phases[m].Disabling? {
        StepAfterwards(m, c);
      }
    }

    method StoreCooldown(m: nat, c: Choices)
      requires Valid() && m in phases && phases[m].CoolingDown? && !c.failed
      modifies this`row, this`phases
      ensures Valid() && phases == old(phases)[m := Idle]
      ensures var p := old(phases[m]); var swapped := Swapped(old(row), p.expected, p.plan);
        && row == (if p.disable then Row(false, [], swapped.lastAttempted) else swapped)
        && (!p.disable && swapped != old(row) ==> p.plan != [] && Quiet(p.plan[0], now, row, phases))
    {
      StepAfterwards(m, c);
      if phases[m].Disabling? {
        StepAfterwards(m, c);
      }
    }

    /** Any manager, also a new one, steps or gives up; nothing starts in a quiet stretch, and a
        cooldown that was stored is logged. */
    method Turn(m: nat, ghost until: int)
      requires Valid() && CooldownsHold()
      modifies this`row, this`phases, this`starts, this`cooldowns
      ensures Valid() && CooldownsHold() && Forward(old(row), row) && old(starts) <= starts
      ensures cooldowns ==
        if m in old(phases) && old(phases)[m].CoolingDown? && old(phases)[m].plan != [] && row != old(row)
        then old(cooldowns) + [Cooldown(|starts|, old(phases)[m].plan[0])]
        else old(cooldowns)
      ensures Quiet(until, now, old(row), old(phases)) ==>
        Quiet(until, now, row, phases) && forall i :: |old(starts)| <= i < |starts| ==> until <= starts[i]
    {
      var abandon: bool := *;
      if abandon || m !in phases {
        IdleRespects(cooldowns, now, row, phases, starts, m);
        Abandon(m);
      } else {
        ghost var was := phases[m];
        var c: Choices := *;
        Step(m, c);
        StepIsTurn(was, phases[m], old(row), row, now, c, old(starts));
        TurnRespects(cooldowns, now, old(row), old(phases), old(starts), m, phases[m], row, starts);
        if was.CoolingDown? && row != old(row) {
          assert !phases[m].Creating?;
          cooldowns := cooldowns + [Cooldown(|starts|, was.plan[0])];
        }
        if Quiet(until, now, old(row), old(phases)) {
          TurnIsQuiet(until, now, old(row), old(phases), old(starts), m, phases[m], row, starts);
        }
      }
    }

    /** Every run: whatever the managers, the clock, the draws and the database do, creator
        starts stay five minutes apart, the next run never moves back, and nothing starts before
        the end of a cooldown that has been stored. */
    method Run(steps: nat, ghost until: int)
      requires Valid() && CooldownsHold()
      modifies this
      ensures Valid() && CooldownsHold() && Forward(old(row), row) && old(starts) <= starts && old(cooldowns) <= cooldowns
      ensures Quiet(until, old(now), old(row), old(phases)) ==> forall i :: |old(starts)| <= i < |starts| ==> until <= starts[i]
      ensures forall i, j :: 0 <= i < j < |starts| ==> starts[i] + MINIMUM_INTERVAL <= starts[j]
      ensures forall k, i :: 0 <= k < |cooldowns| && cooldowns[k].startsBefore <= i < |starts| ==> cooldowns[k].until <= starts[i]
    {
      for n := 0 to steps
        invariant Valid() && CooldownsHold() && Forward(old(row), row) && old(starts) <= starts && old(cooldowns) <= cooldowns
        invariant Quiet(until, old(now), old(row), old(phases)) ==>
          Quiet(until, now, row, phases) && forall i :: |old(starts)| <= i < |starts| ==> until <= starts[i]
      {
        var m: nat, later: int := *, *;
        if later > now {
          if Quiet(until, now, row, phases) { TimeStaysQuiet(until, now, later, row, phases); }
          TimeRespects(cooldowns, now, later, row, phases, starts);
          Elapse(later);
        }
        Turn(m, until);
      }
      forall i, j | 0 <= i < j < |starts| ensures starts[i] + MINIMUM_INTERVAL <= starts[j] {
        SpacedPairs(starts, i, j);
      }
      forall k, i | 0 <= k < |cooldowns| && cooldowns[k].startsBefore <= i < |starts| ensures cooldowns[k].until <= starts[i] {
        assert Respects(cooldowns[k], now, row, phases, starts);
      }
    }
  }
}
