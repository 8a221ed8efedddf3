/** The plans of the automatic alias creation scheduler: absolute deadlines, in nanoseconds,
    that are generated at random, shifted rigidly and consumed from the front. */
module CreationPlans {
  import opened Basics
  import opened Results
  import opened Sorting

  const CREATIONS_PER_CYCLE := 5
  const MINIMUM_INTERVAL := 5 * MINUTE
  const CYCLE_DURATION := 60 * MINUTE
  const RATE_LIMIT_COOLDOWN := 61 * MINUTE
  const EXTRA_MINUTES := 35

  /** The widest gap a stored plan can contain: 35 spare minutes on top of two minimum gaps. */
  const WIDEST_GAP := 45 * MINUTE

  datatype PlanError = InvalidRandom

  ghost predicate SpacedAt(plan: seq<int>, i: int)
    requires 0 < i < |plan|
  {
    plan[i - 1] + MINIMUM_INTERVAL <= plan[i]
  }

  ghost predicate CloseAt(plan: seq<int>, i: int)
    requires 0 < i < |plan|
  {
    plan[i] <= plan[i - 1] + WIDEST_GAP
  }

  /** Consecutive deadlines are at least the minimum interval apart. */
  ghost predicate Spaced(plan: seq<int>) {
    forall i :: 0 < i < |plan| ==> SpacedAt(plan, i)
  }

  ghost predicate Close(plan: seq<int>) {
    forall i :: 0 < i < |plan| ==> CloseAt(plan, i)
  }

  /** What the repository holds for an enabled account. */
  ghost predicate Stored(plan: seq<int>) {
    1 <= |plan| <= CREATIONS_PER_CYCLE && Spaced(plan) && Close(plan)
  }

  // ---- Generation ------------------------------------------------------------------------

  /** The values one run of the random source returns. */
  type Draws = s: seq<int> | |s| == EXTRA_MINUTES witness seq(EXTRA_MINUTES, _ => 0)

  ghost predicate ValidDraws(draws: seq<int>) {
    forall k :: 0 <= k < |draws| ==> 0 <= draws[k] < CREATIONS_PER_CYCLE
  }

  /** The gap before deadline i: five minutes and one more per draw of bucket i. */
  ghost function Gap(draws: seq<int>, i: int): (gap: int)
    ensures gap >= MINIMUM_INTERVAL
  {
    MINIMUM_INTERVAL + multiset(draws)[i] * MINUTE
  }

  /** Five deadlines after the anchor, at least five minutes apart, the last after an hour. */
  ghost predicate FreshPlan(plan: seq<int>, anchor: int, draws: Draws) {
    && |plan| == CREATIONS_PER_CYCLE
    && plan[0] == anchor + Gap(draws, 0)
    && plan[1] == plan[0] + Gap(draws, 1)
    && plan[2] == plan[1] + Gap(draws, 2)
    && plan[3] == plan[2] + Gap(draws, 3)
    && plan[4] == plan[3] + Gap(draws, 4)
    && plan[4] == anchor + CYCLE_DURATION
  }

  lemma FreshIsStored(plan: seq<int>, anchor: int, draws: Draws)
    requires FreshPlan(plan, anchor, draws)
    ensures Stored(plan) && Stored(plan[0 := anchor])
    ensures anchor + MINIMUM_INTERVAL <= plan[0] <= anchor + WIDEST_GAP
  {
  }

  lemma GapStep(draws: seq<int>, n: nat)
    requires n < |draws|
    ensures forall i :: Gap(draws[..n + 1], i) == Gap(draws[..n], i) + (if i == draws[n] then MINUTE else 0)
  {
    assert draws[..n + 1] == draws[..n] + [draws[n]];
  }

  lemma {:induction false} GapsAddUp(draws: seq<int>)
    requires ValidDraws(draws)
    ensures Gap(draws, 0) + Gap(draws, 1) + Gap(draws, 2) + Gap(draws, 3) + Gap(draws, 4)
      == 5 * MINIMUM_INTERVAL + |draws| * MINUTE
  {
    if draws != [] {
      var n := |draws| - 1;
      GapsAddUp(draws[..n]);
      GapStep(draws, n);
      assert draws[..n + 1] == draws;
    }
  }

  /** The random gaps of `generatePlan`. */
  method RandomGaps(draws: Draws) returns (r: Result<array<int>, PlanError>)
    ensures r.Success? <==> ValidDraws(draws)
    ensures r.Success? ==> fresh(r.value) && r.value.Length == CREATIONS_PER_CYCLE
    ensures r.Success? ==> forall i :: 0 <= i < CREATIONS_PER_CYCLE ==> r.value[i] == Gap(draws, i)
    ensures r.Success? ==> r.value[0] + r.value[1] + r.value[2] + r.value[3] + r.value[4] == CYCLE_DURATION
  {
    var gaps := new int[CREATIONS_PER_CYCLE](_ => MINIMUM_INTERVAL);
    for n := 0 to EXTRA_MINUTES
      invariant ValidDraws(draws[..n])
      invariant forall i :: 0 <= i < CREATIONS_PER_CYCLE ==> gaps[i] == Gap(draws[..n], i)
    {
      var bucket := draws[n];
      GapStep(draws, n);
      if bucket < 0 || bucket >= CREATIONS_PER_CYCLE {
        return Failure(InvalidRandom);
      }
      gaps[bucket] := gaps[bucket] + MINUTE;
    }
    assert draws[..EXTRA_MINUTES] == draws;
    GapsAddUp(draws);
    return Success(gaps);
  }

  /** `generatePlan`. */
  method GeneratePlan(anchor: int, draws: Draws) returns (r: Result<seq<int>, PlanError>)
    ensures r.Success? <==> ValidDraws(draws)
    ensures r.Success? ==> FreshPlan(r.value, anchor, draws)
  {
    var drawn := RandomGaps(draws);
    if drawn.Failure? {
      return Failure(drawn.error);
    }
    var gaps := drawn.value;
    var planned: seq<int> := [];
    var next := anchor;
    for i := 0 to CREATIONS_PER_CYCLE
      invariant |planned| == i && next == (if i == 0 then anchor else planned[i - 1])
      invariant i > 0 ==> planned[0] == anchor + gaps[0]
      invariant i > 1 ==> planned[1] == planned[0] + gaps[1]
      invariant i > 2 ==> planned[2] == planned[1] + gaps[2]
      invariant i > 3 ==> planned[3] == planned[2] + gaps[3]
      invariant i > 4 ==> planned[4] == planned[3] + gaps[4]
    {
      next := next + gaps[i];
      planned := planned + [next];
    }
    return Success(planned);
  }

  /** `newPlanStartingAt`: the first deadline is the end of the cooldown itself. */
  method NewPlanStartingAt(first: int, draws: Draws) returns (r: Result<seq<int>, PlanError>)
    ensures r.Success? <==> ValidDraws(draws)
    ensures r.Success? ==> Stored(r.value) && |r.value| == CREATIONS_PER_CYCLE
    ensures r.Success? ==> r.value[0] == first && r.value[4] == first + CYCLE_DURATION
  {
    r := GeneratePlan(first, draws);
    if r.Success? {
      FreshIsStored(r.value, first, draws);
      r := Success(r.value[0 := first]);
    }
  }

  // ---- Selection -------------------------------------------------------------------------

  const BY_TIME := (t: int) => t

  /** The deadlines strictly after `bound`, in their stored order. */
  function Later(plan: seq<int>, bound: int): (r: seq<int>)
    ensures |r| <= |plan| && forall t :: t in r ==> t > bound
  {
    if plan == [] then
      []
    else
      Later(plan[..|plan| - 1], bound) + (if plan[|plan| - 1] > bound then [plan[|plan| - 1]] else [])
  }

  /** `futurePlan`: exactly the deadlines after the expected one, in order. */
  method FuturePlan(planned: seq<int>, expected: int) returns (r: seq<int>)
    ensures r == SortByKey(BY_TIME, Later(planned, expected)) && SortedBy(BY_TIME, r)
  {
    var result: seq<int> := [];
    for n := 0 to |planned|
      invariant result == Later(planned[..n], expected)
    {
      assert planned[..n + 1][..n] == planned[..n];
      if planned[n] > expected {
        result := result + [planned[n]];
      }
    }
    assert planned[..|planned|] == planned;
    SortIsSorted(BY_TIME, result);
    return SortByKey(BY_TIME, result);
  }

  /** `futurePlanIncludingCurrent`: the expected deadline and the ones after it. */
  method FuturePlanIncludingCurrent(planned: seq<int>, expected: int) returns (r: seq<int>)
    ensures r == SortByKey(BY_TIME, Later(planned, expected - 1)) && SortedBy(BY_TIME, r)
  {
    var result: seq<int> := [];
    for n := 0 to |planned|
      invariant result == Later(planned[..n], expected - 1)
    {
      assert planned[..n + 1][..n] == planned[..n];
      if !(planned[n] < expected) {
        result := result + [planned[n]];
      }
    }
    assert planned[..|planned|] == planned;
    SortIsSorted(BY_TIME, result);
    return SortByKey(BY_TIME, result);
  }

  /** `validPlan`. */
  method ValidPlan(planned: seq<int>) returns (valid: bool)
    ensures valid <==> Spaced(planned)
  {
    if |planned| == 0 {
      return true;
    }
    for index := 1 to |planned|
      invariant forall i :: 0 < i < index ==> SpacedAt(planned, i)
    {
      assert SpacedAt(planned, index) <==> planned[index - 1] + MINIMUM_INTERVAL <= planned[index];
      if planned[index] - planned[index - 1] < MINIMUM_INTERVAL {
        return false;
      }
    }
    return true;
  }

  lemma {:induction false} SpacedPairs(plan: seq<int>, i: nat, j: nat)
    requires Spaced(plan) && i < j < |plan|
    ensures plan[i] + MINIMUM_INTERVAL <= plan[j]
  {
    assert SpacedAt(plan, j);
    if i + 1 < j { SpacedPairs(plan, i, j - 1); }
  }

  lemma SpacedSlice(plan: seq<int>, from: nat, to: nat)
    requires Spaced(plan) && from <= to <= |plan|
    ensures Spaced(plan[from..to])
  {
    forall i | 0 < i < to - from ensures SpacedAt(plan[from..to], i) {
      assert SpacedAt(plan, from + i);
    }
  }

  lemma {:induction false} LaterOfSpaced(plan: seq<int>, from: nat, bound: int)
    requires Spaced(plan) && from <= |plan|
    requires from > 0 ==> plan[from - 1] <= bound
    requires from < |plan| ==> plan[from] > bound
    ensures Later(plan, bound) == plan[from..]
  {
    if plan != [] {
      var last := |plan| - 1;
      SpacedSlice(plan, 0, last);
      assert plan[0..last] == plan[..last];
      if from == |plan| {
        if last > 0 { SpacedPairs(plan, last - 1, last); }
        LaterOfSpaced(plan[..last], last, bound);
      } else {
        if from < last { SpacedPairs(plan, from, last); }
        LaterOfSpaced(plan[..last], from, bound);
        assert plan[..last][from..] + [plan[last]] == plan[from..];
      }
    }
  }

  lemma SortOfSpaced(plan: seq<int>)
    requires Spaced(plan)
    ensures SortByKey(BY_TIME, plan) == plan
  {
    forall i, j | 0 <= i < j < |plan| ensures BY_TIME(plan[i]) < BY_TIME(plan[j]) {
      SpacedPairs(plan, i, j);
    }
    SortOfSorted(BY_TIME, plan);
  }

  /** On a stored plan whose head is due, `futurePlan` drops exactly the head. */
  lemma DueTail(plan: seq<int>)
    requires Stored(plan)
    ensures SortByKey(BY_TIME, Later(plan, plan[0])) == plan[1..] && Spaced(plan[1..])
  {
    if |plan| > 1 { SpacedPairs(plan, 0, 1); }
    SpacedSlice(plan, 1, |plan|);
    var rest := plan[1..|plan|];
    assert rest == plan[1..];
    assert Later(plan, plan[0]) == rest by { LaterOfSpaced(plan, 1, plan[0]); }
    SortOfSpaced(rest);
  }

  /** `futurePlanIncludingCurrent` then drops nothing. */
  lemma DueWhole(plan: seq<int>)
    requires Stored(plan)
    ensures SortByKey(BY_TIME, Later(plan, plan[0] - 1)) == plan
  {
    assert Later(plan, plan[0] - 1) == plan by {
      LaterOfSpaced(plan, 0, plan[0] - 1);
      assert plan[0..] == plan;
    }
    SortOfSpaced(plan);
  }

  // ---- Shifting --------------------------------------------------------------------------

  /** The least rigid shift that brings the head to `earliest` or later. */
  function ShiftedTo(plan: seq<int>, earliest: int): (r: seq<int>)
    ensures |r| == |plan|
  {
    seq(|plan|, i requires 0 <= i < |plan| => plan[i] + (if plan[0] < earliest then earliest - plan[0] else 0))
  }

  lemma ShiftKeepsGaps(plan: seq<int>, earliest: int)
    requires plan != []
    ensures var r := ShiftedTo(plan, earliest);
      && r[0] >= earliest && r[0] >= plan[0] && (r[0] == earliest || r == plan)
      && (forall i :: 0 < i < |plan| ==> r[i] - r[i - 1] == plan[i] - plan[i - 1])
      && (Spaced(r) <==> Spaced(plan)) && (Close(r) <==> Close(plan))
  {
    var r := ShiftedTo(plan, earliest);
    forall i | 0 < i < |plan|
      ensures r[i] - r[i - 1] == plan[i] - plan[i - 1]
      ensures SpacedAt(r, i) <==> SpacedAt(plan, i)
      ensures CloseAt(r, i) <==> CloseAt(plan, i)
    {
    }
  }

  /** The shifting loops of `planAfterClaim`, `shiftCurrentPlan` and `correctPlanAfterClaim`. */
  method ShiftTo(planned: seq<int>, earliest: int) returns (r: seq<int>)
    requires planned != []
    ensures r == ShiftedTo(planned, earliest)
  {
    r := planned;
    if planned[0] < earliest {
      var shift := earliest - planned[0];
      for index := 0 to |r|
        invariant |r| == |planned|
        invariant forall k :: 0 <= k < |r| ==> r[k] == planned[k] + (if k < index then shift else 0)
      {
        r := r[index := r[index] + shift];
      }
    }
  }

  /** The deadlines `planAfterClaim` keeps: at most four, properly spaced. */
  ghost predicate Keeps(rest: seq<int>) {
    1 <= |rest| <= CREATIONS_PER_CYCLE - 1 && Spaced(rest)
  }

  /** `planAfterClaim`, for any plan the repository may return. */
  method PlanAfterClaim(plannedAt: seq<int>, expected: int, attemptedAt: int, draws: Draws)
    returns (r: Result<seq<int>, PlanError>)
    ensures var rest := SortByKey(BY_TIME, Later(plannedAt, expected));
      && (Keeps(rest) ==> r == Success(ShiftedTo(rest, attemptedAt + MINIMUM_INTERVAL)))
      && (!Keeps(rest) ==> (r.Success? <==> ValidDraws(draws)))
      && (!Keeps(rest) && r.Success? ==> FreshPlan(r.value, if attemptedAt > expected then attemptedAt else expected, draws))
  {
    var remaining := FuturePlan(plannedAt, expected);
    var valid := ValidPlan(remaining);
    if |remaining| > CREATIONS_PER_CYCLE - 1 || !valid {
      remaining := [];
    }
    if |remaining| == 0 {
      var anchor := expected;
      if attemptedAt > anchor {
        anchor := attemptedAt;
      }
      r := GeneratePlan(anchor, draws);
      return;
    }
    var shifted := ShiftTo(remaining, attemptedAt + MINIMUM_INTERVAL);
    return Success(shifted);
  }

  /** The plan a claim installs leaves five minutes after the claim, moves the next run
      forward and is fit to be stored again. */
  lemma ClaimPlanIsStored(plannedAt: seq<int>, attemptedAt: int, r: seq<int>, draws: Draws)
    requires Stored(plannedAt) && plannedAt[0] <= attemptedAt
    requires if Keeps(plannedAt[1..]) then r == ShiftedTo(plannedAt[1..], attemptedAt + MINIMUM_INTERVAL)
      else FreshPlan(r, attemptedAt, draws)
    ensures Stored(r) && attemptedAt + MINIMUM_INTERVAL <= r[0] <= attemptedAt + WIDEST_GAP
  {
    if Keeps(plannedAt[1..]) {
      assert CloseAt(plannedAt, 1);
      forall i | 0 < i < |plannedAt| - 1 ensures CloseAt(plannedAt[1..], i) {
        assert CloseAt(plannedAt, i + 1);
      }
      ShiftKeepsGaps(plannedAt[1..], attemptedAt + MINIMUM_INTERVAL);
    } else {
      FreshIsStored(r, attemptedAt, draws);
    }
  }

  ghost predicate Usable(rest: seq<int>) {
    1 <= |rest| <= CREATIONS_PER_CYCLE && Spaced(rest)
  }

  /** `shiftCurrentPlan`, for any plan the repository may return. */
  method ShiftCurrentPlan(plannedAt: seq<int>, expected: int, earliest: int, draws: Draws)
    returns (r: Result<seq<int>, PlanError>)
    ensures var rest := SortByKey(BY_TIME, Later(plannedAt, expected - 1));
      && (Usable(rest) ==> r == Success(ShiftedTo(rest, earliest)))
      && (!Usable(rest) ==> (r.Success? <==> ValidDraws(draws)))
      && (!Usable(rest) && r.Success? ==> FreshPlan(r.value, earliest - MINIMUM_INTERVAL, draws))
  {
    if |plannedAt| == 0 {
      r := GeneratePlan(earliest - MINIMUM_INTERVAL, draws);
      return;
    }
    var planned := FuturePlanIncludingCurrent(plannedAt, expected);
    var valid := ValidPlan(planned);
    if |planned| == 0 || |planned| > CREATIONS_PER_CYCLE || !valid {
      r := GeneratePlan(earliest - MINIMUM_INTERVAL, draws);
      return;
    }
    var shifted := ShiftTo(planned, earliest);
    return Success(shifted);
  }
}
