/** `DeleteAliases`: who completes and reports which input, over every interleaving of the
    account workers and every panic. */
module DeletionBookkeeping {
  import opened Results

  datatype Cause =
    | NotPositive
    | Duplicate
    | CancelledBefore
    | Unavailable
    | LookupFailed
    | BadAccount
    | AccountStopped(error: int)
    | Refused(error: int)
    | ItemPanicked
    | WorkerStopped

  datatype Outcome = Outcome(aliasID: int, error: Option<Cause>)

  /** One account's inputs, by index. */
  datatype Group = Group(account: int, items: seq<nat>)

  /** A worker walks its items, then completes what a panic left over. */
  datatype Worker =
    | Running(position: nat, stopped: Option<int>)
    | Attempting(position: nat)
    | Finalizing(position: nat, panicked: bool)
    | Done(died: bool)

  /** What the repository says about an alias before it is scheduled. */
  datatype Lookup = Lookup(cancelled: bool, unavailable: bool, panicked: bool, failed: bool, account: int)

  /** How one attempt returned: with which error, and with which error it stopped the account. */
  datatype Returned = Returned(error: Option<int>, stops: Option<int>)

  ghost predicate Distinct(s: seq<nat>) {
    forall i, j :: 0 <= i < j < |s| ==> s[i] != s[j]
  }

  /** No earlier input names the same alias. */
  predicate FirstUse(ids: seq<int>, i: nat) {
    i < |ids| && ids[i] >= 1 && forall j :: 0 <= j < i ==> ids[j] != ids[i]
  }

  /** Why an input is answered without being scheduled. */
  function Refusal(ids: seq<int>, lookup: nat -> Lookup, i: nat): Option<Cause> {
    if i >= |ids| || ids[i] < 1 then Some(NotPositive)
    else if !FirstUse(ids, i) then Some(Duplicate)
    else if lookup(i).cancelled then Some(CancelledBefore)
    else if lookup(i).unavailable then Some(Unavailable)
    else if lookup(i).panicked || lookup(i).failed then Some(LookupFailed)
    else if lookup(i).account < 1 then Some(BadAccount)
    else None
  }

  function Reported(error: Option<int>): Option<Cause> {
    if error.Some? then Some(Refused(error.value)) else None
  }

  /** An attempt of the same account, earlier in the input, ended by stopping it with this error. */
  ghost predicate StoppedBefore(lookup: nat -> Lookup, results: map<nat, Returned>, i: nat, error: int) {
    exists j: nat :: j < i && j in results && lookup(j).account == lookup(i).account && results[j].stops == Some(error)
  }

  /** Attempts of one account run in input order, each after the one before it has returned
      without stopping the account. */
  ghost predicate InTurn(lookup: nat -> Lookup, runs: seq<nat>, results: map<nat, Returned>) {
    forall j: nat, k: nat :: j < k < |runs| && lookup(runs[j]).account == lookup(runs[k]).account ==>
      runs[j] < runs[k] && runs[j] in results && results[runs[j]].stops.None?
  }

  lemma StillInTurn(lookup: nat -> Lookup, runs: seq<nat>, results: map<nat, Returned>, i: nat, result: Returned)
    requires InTurn(lookup, runs, results) && i !in results
    ensures InTurn(lookup, runs, results[i := result])
  {
  }

  /** What an answered input was told: what its own attempt returned; without one, why it was
      refused, that its account had been stopped, or that the batch failed. */
  ghost predicate Answered(
    ids: seq<int>, lookup: nat -> Lookup, results: map<nat, Returned>, batchFailed: bool, i: nat, error: Option<Cause>
  ) {
    if i in results then error == Reported(results[i].error)
    else
      && error.Some?
      && (Refusal(ids, lookup, i).Some? ==> error == Refusal(ids, lookup, i))
      && (Refusal(ids, lookup, i).None? ==>
        if error.value.AccountStopped? then StoppedBefore(lookup, results, i, error.value.error)
        else batchFailed && (error.value.ItemPanicked? || error.value.WorkerStopped?))
  }

  lemma StillAnswered(
    ids: seq<int>, lookup: nat -> Lookup, results: map<nat, Returned>, batchFailed: bool, i: nat, error: Option<Cause>,
    j: nat, result: Returned
  )
    requires Answered(ids, lookup, results, batchFailed, i, error) && j != i && j !in results
    ensures Answered(ids, lookup, results[j := result], batchFailed, i, error)
  {
    if i !in results && error.value.AccountStopped? && Refusal(ids, lookup, i).None? {
      var k: nat :| k < i && k in results && lookup(k).account == lookup(i).account && results[k].stops == Some(error.value.error);
      assert k in results[j := result];
    }
  }

  function Left(w: Worker, size: nat): nat {
    match w
    case Running(p, _) => if p <= size then 2 * (size - p) + size + 3 else size + 2
    case Attempting(p) => if p <= size then 2 * (size - p) + size + 2 else size + 2
    case Finalizing(p, _) => if p <= size then size + 1 - p else 1
    case Done(_) => 0
  }

  function TotalLeft(workers: seq<Worker>, groups: seq<Group>): nat
    requires |workers| == |groups|
  {
    if workers == [] then 0
    else Left(workers[0], |groups[0].items|) + TotalLeft(workers[1..], groups[1..])
  }

  lemma {:induction false} LessLeft(workers: seq<Worker>, groups: seq<Group>, g: nat, w: Worker)
    requires |workers| == |groups| && g < |workers|
    requires Left(w, |groups[g].items|) < Left(workers[g], |groups[g].items|)
    ensures TotalLeft(workers[g := w], groups) < TotalLeft(workers, groups)
  {
    if g > 0 {
      LessLeft(workers[1..], groups[1..], g - 1, w);
      assert workers[g := w][1..] == workers[1..][g - 1 := w];
    } else {
      assert workers[g := w][1..] == workers[1..];
    }
  }

  ghost predicate Seat(
    ids: seq<int>, lookup: nat -> Lookup, groups: seq<Group>, owner: map<nat, (nat, nat)>, scheduled: nat, g: nat, p: nat
  )
    requires g < |groups| && p < |groups[g].items|
  {
    var i := groups[g].items[p];
    && i < scheduled <= |ids| && Refusal(ids, lookup, i).None? && groups[g].account == lookup(i).account
    && i in owner && owner[i] == (g, p)
  }

  ghost predicate Seated(ids: seq<int>, lookup: nat -> Lookup, groups: seq<Group>, owner: map<nat, (nat, nat)>, scheduled: nat) {
    forall g: nat, p: nat :: g < |groups| && p < |groups[g].items| ==> Seat(ids, lookup, groups, owner, scheduled, g, p)
  }

  /** No two groups work on one account. */
  ghost predicate Separate(groups: seq<Group>) {
    forall g, h :: 0 <= g < h < |groups| ==> groups[g].account != groups[h].account
  }

  predicate Rising(items: seq<nat>) {
    var n := |items|;
    n < 2 || (items[n - 2] < items[n - 1] && Rising(items[..n - 1]))
  }

  lemma {:induction false} RisingAt(items: seq<nat>, p: nat, q: nat)
    requires Rising(items) && p < q < |items|
    ensures items[p] < items[q]
  {
    var n := |items|;
    if q < n - 1 {
      RisingAt(items[..n - 1], p, q);
    } else if p < n - 2 {
      RisingAt(items[..n - 1], p, n - 2);
    }
  }

  /** The items of a group keep the order of the input. */
  ghost predicate Ascending(groups: seq<Group>) {
    forall g: nat :: g < |groups| ==> Rising(groups[g].items)
  }

  predicate PlacedIn(groups: seq<Group>, owner: map<nat, (nat, nat)>, i: nat) {
    i in owner && owner[i].0 < |groups| && owner[i].1 < |groups[owner[i].0].items| && groups[owner[i].0].items[owner[i].1] == i
  }

  lemma StillPlaced(groups: seq<Group>, owner: map<nat, (nat, nat)>, g: nat, index: nat, i: nat)
    requires g < |groups| && (i == index || PlacedIn(groups, owner, i))
    ensures var p := |groups[g].items|;
      PlacedIn(groups[g := groups[g].(items := groups[g].items + [index])], owner[index := (g, p)], i)
  {
  }

  /** `byAccount` finds every group by its account. */
  ghost predicate Indexed(byAccount: map<int, nat>, groups: seq<Group>) {
    && (forall a :: a in byAccount ==> byAccount[a] < |groups| && groups[byAccount[a]].account == a)
    && (forall g :: 0 <= g < |groups| ==> groups[g].account in byAccount && byAccount[groups[g].account] == g)
  }

  lemma StillSeated(ids: seq<int>, lookup: nat -> Lookup, groups: seq<Group>, owner: map<nat, (nat, nat)>, scheduled: nat, more: seq<Group>)
    requires Seated(ids, lookup, groups, owner, scheduled) && scheduled < |ids|
    requires forall g :: 0 <= g < |more| ==> more[g].items == []
    ensures Seated(ids, lookup, groups + more, owner, scheduled) && Seated(ids, lookup, groups + more, owner, scheduled + 1)
  {
    var all, next := groups + more, scheduled + 1;
    forall g: nat, p: nat | g < |all| && p < |all[g].items|
      ensures Seat(ids, lookup, all, owner, scheduled, g, p)
      ensures Seat(ids, lookup, all, owner, next, g, p)
    {
      assert g < |groups| && all[g] == groups[g];
      assert Seat(ids, lookup, groups, owner, scheduled, g, p);
    }
  }

  lemma NewlySeated(
    ids: seq<int>, lookup: nat -> Lookup, groups: seq<Group>, owner: map<nat, (nat, nat)>, g: nat, index: nat
  )
    requires index < |ids| && g < |groups| && Seated(ids, lookup, groups, owner, index)
    requires Refusal(ids, lookup, index).None? && groups[g].account == lookup(index).account
    ensures var p := |groups[g].items|;
      Seated(ids, lookup, groups[g := groups[g].(items := groups[g].items + [index])], owner[index := (g, p)], index + 1)
  {
    var p := |groups[g].items|;
    var after := groups[g := groups[g].(items := groups[g].items + [index])];
    var seats, next := owner[index := (g, p)], index + 1;
    forall h: nat, q: nat | h < |after| && q < |after[h].items| ensures Seat(ids, lookup, after, seats, next, h, q) {
      if h != g || q != p {
        assert after[h].items[q] == groups[h].items[q];
        assert Seat(ids, lookup, groups, owner, index, h, q);
      }
    }
  }

  /** The worker's walk has left position q behind. */
  predicate Past(w: Worker, q: nat) {
    (w.Running? || w.Attempting?) && q < w.position
  }

  /** What was run among the first p items has returned and did not stop the account. */
  ghost predicate Clear(items: seq<nat>, p: nat, ran: set<nat>, results: map<nat, Returned>)
    requires p <= |items|
  {
    forall q: nat :: q < p && items[q] in ran ==> items[q] in results && results[items[q]].stops.None?
  }

  /** One of them stopped it with this error. */
  ghost predicate StoppedAt(items: seq<nat>, p: nat, results: map<nat, Returned>, error: int)
    requires p <= |items|
  {
    exists q: nat :: q < p && items[q] in results && results[items[q]].stops == Some(error)
  }

  /** What a worker on its walk knows about its account. */
  ghost predicate Seen(w: Worker, items: seq<nat>, ran: set<nat>, results: map<nat, Returned>) {
    match w
    case Running(p, stopped) =>
      && p <= |items|
      && (if stopped.None? then Clear(items, p, ran, results) else StoppedAt(items, p, results, stopped.value))
    case Attempting(p) => p <= |items| && Clear(items, p, ran, results)
    case _ => true
  }

  lemma StoppedLater(lookup: nat -> Lookup, items: seq<nat>, account: int, p: nat, results: map<nat, Returned>, error: int)
    requires p < |items| && Rising(items) && StoppedAt(items, p, results, error)
    requires forall q: nat :: q < |items| ==> lookup(items[q]).account == account
    ensures StoppedBefore(lookup, results, items[p], error) && StoppedAt(items, p + 1, results, error)
  {
    var q: nat :| q < p && items[q] in results && results[items[q]].stops == Some(error);
    RisingAt(items, q, p);
    assert items[q] < items[p];
  }

  lemma StillSeen(w: Worker, items: seq<nat>, ran: set<nat>, results: map<nat, Returned>, i: nat, result: Returned)
    requires Seen(w, items, ran, results) && i !in results
    requires forall q: nat :: q < |items| && Past(w, q) ==> items[q] != i
    ensures Seen(w, items, ran + {i}, results) && Seen(w, items, ran, results[i := result])
  {
    if w.Running? && w.stopped.Some? {
      var q: nat :| q < w.position && items[q] in results && results[items[q]].stops == w.stopped;
      assert items[q] in results[i := result];
    }
  }

  /** A worker has completed the items it passed and has not run the others. */
  predicate ItemOK(w: Worker, p: nat, completed: bool, ran: bool) {
    match w
    case Running(position, _) => if p < position then completed else !ran && !completed
    case Attempting(position) => (p < position <==> completed) && (p > position ==> !ran)
    case Finalizing(position, panicked) => completed || (panicked && p >= position)
    case Done(died) => died || completed
  }

  predicate InPlace(w: Worker, group: Group, ran: set<nat>) {
    match w
    case Running(p, _) => p <= |group.items|
    case Attempting(p) => p < |group.items| && group.items[p] in ran
    case Finalizing(p, _) => p <= |group.items|
    case Done(_) => true
  }

  /** A panic ended the walk, or the worker. */
  predicate Broken(w: Worker) {
    (w.Finalizing? && w.panicked) || (w.Done? && w.died)
  }

  ghost predicate Walks(workers: seq<Worker>, groups: seq<Group>, done: set<nat>, ran: set<nat>) {
    && |workers| == |groups|
    && (forall g: nat :: g < |groups| ==> InPlace(workers[g], groups[g], ran))
    && (forall g: nat, p: nat :: g < |groups| && p < |groups[g].items| ==>
      ItemOK(workers[g], p, groups[g].items[p] in done, groups[g].items[p] in ran))
  }

  /** A worker's step concerns nobody else's items. */
  lemma StepKeepsWalks(
    ids: seq<int>, lookup: nat -> Lookup, workers: seq<Worker>, groups: seq<Group>, owner: map<nat, (nat, nat)>, done: set<nat>, ran: set<nat>,
    g: nat, p: nat, next: Worker, done': set<nat>, ran': set<nat>
  )
    requires Seated(ids, lookup, groups, owner, |ids|) && Walks(workers, groups, done, ran)
    requires g < |groups| && p < |groups[g].items| && InPlace(next, groups[g], ran')
    requires done <= done' <= done + {groups[g].items[p]} && ran <= ran' <= ran + {groups[g].items[p]}
    requires forall q: nat :: q < |groups[g].items| ==>
      ItemOK(next, q, groups[g].items[q] in done', groups[g].items[q] in ran')
    ensures Walks(workers[g := next], groups, done', ran')
  {
    var after := workers[g := next];
    forall h: nat, q: nat | h < |groups| && q < |groups[h].items|
      ensures ItemOK(after[h], q, groups[h].items[q] in done', groups[h].items[q] in ran')
    {
      assert Seat(ids, lookup, groups, owner, |ids|, g, p) && Seat(ids, lookup, groups, owner, |ids|, h, q);
      assert h != g ==> groups[h].items[q] != groups[g].items[p];
      assert ItemOK(workers[h], q, groups[h].items[q] in done, groups[h].items[q] in ran);
    }
  }

  /** The head item is finished, whether it was run or not. */
  lemma PassedKeepsWalks(
    ids: seq<int>, lookup: nat -> Lookup, workers: seq<Worker>, groups: seq<Group>, owner: map<nat, (nat, nat)>, done: set<nat>, ran: set<nat>,
    g: nat, stops: Option<int>
  )
    requires Seated(ids, lookup, groups, owner, |ids|) && Walks(workers, groups, done, ran)
    requires g < |groups| && (workers[g].Running? || workers[g].Attempting?) && workers[g].position < |groups[g].items|
    ensures var p := workers[g].position;
      Walks(workers[g := Running(p + 1, stops)], groups, done + {groups[g].items[p]}, ran)
  {
    var p, items := workers[g].position, groups[g].items;
    var next := Running(p + 1, stops);
    forall q: nat | q < |items| ensures ItemOK(next, q, items[q] in done + {items[p]}, items[q] in ran) {
      assert ItemOK(workers[g], q, items[q] in done, items[q] in ran);
      assert Seat(ids, lookup, groups, owner, |ids|, g, p) && Seat(ids, lookup, groups, owner, |ids|, g, q);
    }
    StepKeepsWalks(ids, lookup, workers, groups, owner, done, ran, g, p, next, done + {items[p]}, ran);
  }

  /** A panic, or the end of the worker, promises nothing more about its items. */
  lemma EndKeepsWalks(workers: seq<Worker>, groups: seq<Group>, done: set<nat>, ran: set<nat>, g: nat, next: Worker)
    requires Walks(workers, groups, done, ran) && g < |groups|
    requires next.Done? || (next.Finalizing? && next.position <= |groups[g].items|)
    requires next.Finalizing? ==> next.position == 0
    requires !Broken(next) ==> forall q: nat :: q < |groups[g].items| ==> groups[g].items[q] in done
    ensures Walks(workers[g := next], groups, done, ran)
  {
    var after := workers[g := next];
    forall h: nat, q: nat | h < |groups| && q < |groups[h].items|
      ensures ItemOK(after[h], q, groups[h].items[q] in done, groups[h].items[q] in ran)
    {
      assert ItemOK(workers[h], q, groups[h].items[q] in done, groups[h].items[q] in ran);
    }
  }

  class DeletionRun {
    const ids: seq<int>
    const lookup: nat -> Lookup
    /** Nothing panics. */
    const steady: bool
    const outcomes: array<Outcome>
    const completed: array<bool>
    var groups: seq<Group>
    var workers: seq<Worker>
    var batchFailed: bool
    /** Indices in the order they were reported and run against Apple, and what the runs
        returned. */
    ghost var reports: seq<nat>
    ghost var runs: seq<nat>
    ghost var results: map<nat, Returned>
    ghost var done: set<nat>
    ghost var ran: set<nat>
    /** The group and position that hold an index. */
    ghost var owner: map<nat, (nat, nat)>

    ghost predicate AnswerAt(i: nat)
      requires i < outcomes.Length
      reads this`results, this`batchFailed, outcomes
    {
      i < |ids| && outcomes[i].aliasID == ids[i] && Answered(ids, lookup, results, batchFailed, i, outcomes[i].error)
    }

    /** Every completed input was reported once and answered properly; at most the results of
        `pending` are not recorded yet. */
    ghost predicate Recorded(pending: set<nat>)
      reads this`reports, this`done, this`results, this`batchFailed, outcomes, completed
    {
      && outcomes.Length == completed.Length == |ids|
      && Distinct(reports)
      && (forall i: nat :: i in reports <==> i in done)
      && (forall i: nat :: i in done <==> i < |ids| && completed[i])
      && (forall i: nat :: i < |ids| && completed[i] ==> AnswerAt(i))
      && results.Keys <= done + pending
      && (steady ==> !batchFailed)
    }

    ghost predicate Booked()
      reads this`reports, this`done, this`results, this`batchFailed, outcomes, completed
    {
      Recorded({})
    }

    /** Every scheduled input sits in exactly one place, in the only group of its account. */
    ghost predicate Grouped(scheduled: nat)
      reads this`groups, this`owner
    {
      Seated(ids, lookup, groups, owner, scheduled) && Separate(groups) && Ascending(groups)
      && forall i: nat {:trigger PlacedIn(groups, owner, i)} :: i < scheduled <= |ids| && Refusal(ids, lookup, i).None? ==> PlacedIn(groups, owner, i)
    }

    /** Only the refused ones have been answered. */
    ghost predicate Refused(scheduled: nat)
      reads this`done
    {
      forall i: nat :: i < scheduled ==> (i in done <==> Refusal(ids, lookup, i).Some?)
    }

    ghost predicate AllRefused()
      reads this`done
    {
      forall i: nat :: i < |ids| && Refusal(ids, lookup, i).Some? ==> i in done
    }

    /** A worker knows a panic, or how the attempts of its account have returned. */
    ghost predicate Knows(w: Worker, items: seq<nat>)
      reads this`batchFailed, this`ran, this`results
    {
      (Broken(w) ==> batchFailed) && Seen(w, items, ran, results)
    }

    /** Nothing is run twice, nothing that was refused, and the inputs of an account in turn. */
    ghost predicate RunOnce()
      reads this`runs, this`ran, this`results
    {
      && Distinct(runs) && (forall r: nat :: r in runs <==> r in ran)
      && (forall r: nat :: r in ran ==> r < |ids| && Refusal(ids, lookup, r).None?)
      && results.Keys <= ran && InTurn(lookup, runs, results)
    }

    ghost predicate AllKnow()
      reads this`workers, this`groups, this`batchFailed, this`ran, this`results
    {
      |workers| == |groups| && forall g: nat :: g < |groups| ==> Knows(workers[g], groups[g].items)
    }

    ghost predicate Working()
      reads this, outcomes, completed
    {
      Booked() && Grouped(|ids|) && AllRefused() && Walks(workers, groups, done, ran) && AllKnow() && RunOnce()
    }

    ghost predicate Untouched(from: nat)
      reads this`done
    {
      forall i: nat :: i in done ==> i < from
    }

    /** Looking an alias up does not panic either. */
    ghost predicate Calm() {
      steady ==> forall i: nat :: !lookup(i).panicked
    }

    constructor (ids: seq<int>, lookup: nat -> Lookup, steady: bool)
      ensures Booked() && Grouped(0) && Refused(0) && Untouched(0)
      ensures this.ids == ids && this.lookup == lookup && this.steady == steady
      ensures fresh(outcomes) && fresh(completed)
      ensures groups == [] && workers == [] && runs == [] && results == map[] && ran == {}
    {
      this.ids, this.lookup, this.steady := ids, lookup, steady;
      outcomes := new Outcome[|ids|](_ => Outcome(0, None));
      completed := new bool[|ids|](_ => false);
      groups, workers, batchFailed, reports, runs, results, owner := [], [], false, [], [], map[], map[];
      done, ran := {}, {};
    }

    /** `complete`: fills in an input once and reports it; a callback panic only fails the
        batch. */
    method Complete(i: nat, error: Option<Cause>)
      requires Recorded({i}) && i < |ids| && (i in done || Answered(ids, lookup, results, batchFailed, i, error))
      modifies this`reports, this`done, this`batchFailed, outcomes, completed
      ensures Booked() && completed[i] && done == old(done) + {i} && (old(batchFailed) ==> batchFailed)
      ensures old(i in done) ==> reports == old(reports) && forall j :: 0 <= j < |ids| ==> outcomes[j] == old(outcomes[j])
      ensures old(i !in done) ==> outcomes[i] == Outcome(ids[i], error) && reports == old(reports) + [i]
    {
      if completed[i] {
        assert done + {i} == done;
        return;
      }
      outcomes[i] := Outcome(ids[i], error);
      completed[i] := true;
      reports := reports + [i];
      done := done + {i};
      var panicked: bool := *;
      batchFailed := batchFailed || (panicked && !steady);
      forall j: nat | j < |ids| && completed[j] ensures AnswerAt(j) {
        if j != i { assert old(AnswerAt(j)); }
      }
    }

    // ---- Scheduling ------------------------------------------------------------------------

    /** The scheduling loop of `DeleteAliases`. */
    method Schedule()
      requires Booked() && Grouped(0) && Refused(0) && Untouched(0) && groups == [] && results == map[] && Calm()
      modifies this`groups, this`owner, this`reports, this`done, this`batchFailed, outcomes, completed
      ensures Booked() && Grouped(|ids|) && Refused(|ids|)
    {
      var seen: set<int> := {};
      var byAccount: map<int, nat> := map[];
      for index := 0 to |ids|
        invariant Booked() && Grouped(index) && Untouched(index) && Refused(index) && Indexed(byAccount, groups)
        invariant forall x :: x in seen ==> x >= 1 && exists j :: 0 <= j < index && ids[j] == x
        invariant forall j :: 0 <= j < index && ids[j] >= 1 ==> ids[j] in seen
      {
        var id := ids[index];
        if id < 1 || id in seen {
          assert !FirstUse(ids, index);
          Refuse(index, if id < 1 then NotPositive else Duplicate);
        } else {
          assert FirstUse(ids, index);
          seen := seen + {id};
          byAccount := Enter(index, byAccount);
        }
      }
    }

    method Refuse(index: nat, cause: Cause)
      requires index < |ids| && Booked() && Grouped(index) && Untouched(index) && Refused(index) && results == map[]
      requires Refusal(ids, lookup, index) == Some(cause)
      modifies this`reports, this`done, this`batchFailed, outcomes, completed
      ensures Booked() && Grouped(index + 1) && Untouched(index + 1) && Refused(index + 1)
    {
      StillSeated(ids, lookup, groups, owner, index, []);
      assert groups + [] == groups;
      Complete(index, Some(cause));
    }

    /** A valid, new input: answered at once or put into its account's group. */
    method Enter(index: nat, known: map<int, nat>) returns (byAccount: map<int, nat>)
      requires index < |ids| && Booked() && Grouped(index) && Untouched(index) && Refused(index) && results == map[]
      requires FirstUse(ids, index) && Indexed(known, groups) && Calm()
      modifies this`groups, this`owner, this`reports, this`done, this`batchFailed, outcomes, completed
      ensures Booked() && Grouped(index + 1) && Untouched(index + 1) && Refused(index + 1) && Indexed(byAccount, groups)
    {
      byAccount := known;
      var found := lookup(index);
      if found.cancelled {
        Refuse(index, CancelledBefore);
      } else if found.unavailable {
        Refuse(index, Unavailable);
      } else if found.panicked || found.failed {
        FailIf(found.panicked);
        Refuse(index, LookupFailed);
      } else if found.account < 1 {
        Refuse(index, BadAccount);
      } else {
        byAccount := Join(index, found.account, known);
      }
    }

    /** A panic fails the batch. */
    method FailIf(panicked: bool)
      requires Booked() && (steady ==> !panicked)
      modifies this`batchFailed
      ensures Booked() && batchFailed == (old(batchFailed) || panicked)
    {
      batchFailed := batchFailed || panicked;
      forall j: nat | j < |ids| && completed[j] ensures AnswerAt(j) {
        assert old(AnswerAt(j));
      }
    }

    method Join(index: nat, account: int, known: map<int, nat>) returns (byAccount: map<int, nat>)
      requires index < |ids| && Grouped(index) && Untouched(index) && Refused(index)
      requires Refusal(ids, lookup, index).None? && account == lookup(index).account && Indexed(known, groups)
      modifies this`groups, this`owner
      ensures Grouped(index + 1) && Untouched(index + 1) && Refused(index + 1) && Indexed(byAccount, groups)
    {
      byAccount := known;
      if account !in byAccount {
        byAccount := byAccount[account := |groups|];
        AddGroup(index, account);
      }
      AddItem(byAccount[account], index);
    }

    method AddItem(g: nat, index: nat)
      requires index < |ids| && Grouped(index) && g < |groups|
      requires Refusal(ids, lookup, index).None? && groups[g].account == lookup(index).account
      modifies this`groups, this`owner
      ensures Grouped(index + 1) && |groups| == |old(groups)|
      ensures forall h :: 0 <= h < |groups| ==> groups[h].account == old(groups)[h].account
    {
      NewlySeated(ids, lookup, groups, owner, g, index);
      forall i: nat | i <= index && Refusal(ids, lookup, i).None?
        ensures PlacedIn(groups[g := groups[g].(items := groups[g].items + [index])], owner[index := (g, |groups[g].items|)], i)
      {
        assert i < index ==> PlacedIn(groups, owner, i);
        StillPlaced(groups, owner, g, index, i);
      }
      ghost var items := groups[g].items;
      if items != [] { assert Seat(ids, lookup, groups, owner, index, g, |items| - 1); }
      assert (items + [index])[..|items|] == items;
      owner := owner[index := (g, |groups[g].items|)];
      groups := groups[g := groups[g].(items := groups[g].items + [index])];
    }

    method AddGroup(index: nat, account: int)
      requires index < |ids| && Grouped(index) && forall g :: 0 <= g < |groups| ==> groups[g].account != account
      modifies this`groups
      ensures Grouped(index) && groups == old(groups) + [Group(account, [])]
    {
      StillSeated(ids, lookup, groups, owner, index, [Group(account, [])]);
      forall i: nat | i < index && Refusal(ids, lookup, i).None?
        ensures PlacedIn(groups + [Group(account, [])], owner, i)
      {
        assert PlacedIn(groups, owner, i);
      }
      groups := groups + [Group(account, [])];
    }

    // ---- The workers -------------------------------------------------------------------------

    /** One worker per group. */
    method Start()
      requires Booked() && Grouped(|ids|) && Refused(|ids|) && runs == [] && ran == {} && results == map[]
      modifies this`workers
      ensures Working() && |workers| == |groups|
    {
      var n := |groups|;
      workers := seq(n, _ => Running(0, None));
      forall g: nat, p: nat | g < |groups| && p < |groups[g].items|
        ensures ItemOK(workers[g], p, groups[g].items[p] in done, groups[g].items[p] in ran)
      {
        assert Seat(ids, lookup, groups, owner, |ids|, g, p);
      }
    }

    /** The item at the head of a running worker is attempted. */
    method BeginItem(g: nat)
      requires Working() && g < |workers| && workers[g].Running? && workers[g].stopped.None?
      requires workers[g].position < |groups[g].items|
      modifies this`workers, this`runs, this`ran
      ensures Working() && |workers| == old(|workers|) && workers == old(workers)[g := workers[g]]
      ensures Left(workers[g], |groups[g].items|) < Left(old(workers[g]), |groups[g].items|)
      ensures runs == old(runs) + [groups[g].items[old(workers[g]).position]]
    {
      var p, i := workers[g].position, groups[g].items[workers[g].position];
      HeadItem(g, p);
      BeginsWalk(g, p);
      NextInTurn(g, p);
      StillKnown(g, p, Returned(None, None));
      runs, ran, workers := runs + [i], ran + {i}, workers[g := Attempting(p)];
    }

    /** The item at the head of a walk is unanswered; it is run exactly while it is attempted. */
    lemma HeadItem(g: nat, p: nat)
      requires Working() && g < |workers| && p < |groups[g].items|
      requires (workers[g].Running? || workers[g].Attempting?) && workers[g].position == p
      ensures var i := groups[g].items[p];
        && i < |ids| && Refusal(ids, lookup, i).None? && lookup(i).account == groups[g].account && i in owner && owner[i] == (g, p)
        && i !in done && i !in results && (i in ran <==> workers[g].Attempting?)
    {
      var i := groups[g].items[p];
      assert Seat(ids, lookup, groups, owner, |ids|, g, p) && ItemOK(workers[g], p, i in done, i in ran);
      assert InPlace(workers[g], groups[g], ran);
    }

    lemma BeginsWalk(g: nat, p: nat)
      requires Working() && g < |workers| && workers[g] == Running(p, None) && p < |groups[g].items|
      ensures Walks(workers[g := Attempting(p)], groups, done, ran + {groups[g].items[p]})
    {
      var items := groups[g].items;
      HeadItem(g, p);
      forall q: nat | q < |items| ensures ItemOK(Attempting(p), q, items[q] in done, items[q] in ran + {items[p]}) {
        assert ItemOK(workers[g], q, items[q] in done, items[q] in ran);
        assert Seat(ids, lookup, groups, owner, |ids|, g, q);
      }
      StepKeepsWalks(ids, lookup, workers, groups, owner, done, ran, g, p, Attempting(p), done, ran + {items[p]});
    }

    /** What becomes of the head item changes nothing that a worker has seen. */
    lemma StillKnown(g: nat, p: nat, result: Returned)
      requires Working() && g < |workers| && p < |groups[g].items|
      requires (workers[g].Running? || workers[g].Attempting?) && workers[g].position == p
      ensures forall h: nat :: h < |groups| ==>
        && Seen(workers[h], groups[h].items, ran + {groups[g].items[p]}, results)
        && Seen(workers[h], groups[h].items, ran, results[groups[g].items[p] := result])
    {
      HeadItem(g, p);
      NobodyPassed(g, p);
      forall h: nat | h < |groups|
        ensures Seen(workers[h], groups[h].items, ran + {groups[g].items[p]}, results)
        ensures Seen(workers[h], groups[h].items, ran, results[groups[g].items[p] := result])
      {
        assert Knows(workers[h], groups[h].items);
        StillSeen(workers[h], groups[h].items, ran, results, groups[g].items[p], result);
      }
    }

    /** What an account has run so far lies before the head of its walk. */
    lemma NextInTurn(g: nat, p: nat)
      requires Working() && g < |workers| && workers[g] == Running(p, None) && p < |groups[g].items|
      ensures InTurn(lookup, runs + [groups[g].items[p]], results)
    {
      var items := groups[g].items;
      assert Seat(ids, lookup, groups, owner, |ids|, g, p) && Knows(workers[g], items);
      forall j: nat | j < |runs| && lookup(runs[j]).account == lookup(items[p]).account
        ensures runs[j] < items[p] && runs[j] in results && results[runs[j]].stops.None?
      {
        var r := runs[j];
        assert r in ran && PlacedIn(groups, owner, r);
        var h, q := owner[r].0, owner[r].1;
        assert Seat(ids, lookup, groups, owner, |ids|, h, q);
        assert h == g;
        assert ItemOK(workers[g], q, items[q] in done, items[q] in ran);
        RisingAt(items, q, p);
      }
    }

    /** No worker is past an item that has not been completed. */
    lemma NobodyPassed(g: nat, p: nat)
      requires Working() && g < |workers| && p < |groups[g].items| && groups[g].items[p] !in done
      ensures forall h: nat, q: nat :: h < |groups| && q < |groups[h].items| && Past(workers[h], q) ==>
        groups[h].items[q] != groups[g].items[p]
    {
      forall h: nat, q: nat | h < |groups| && q < |groups[h].items| && Past(workers[h], q)
        ensures groups[h].items[q] != groups[g].items[p]
      {
        assert ItemOK(workers[h], q, groups[h].items[q] in done, groups[h].items[q] in ran);
      }
    }

    /** The attempt panics, which ends the walk. */
    method PanicItem(g: nat)
      requires Working() && g < |workers| && workers[g].Attempting? && !steady
      modifies this`workers, this`batchFailed
      ensures Working() && workers == old(workers)[g := Finalizing(0, true)]
      ensures Left(workers[g], |groups[g].items|) < Left(old(workers[g]), |groups[g].items|)
    {
      EndKeepsWalks(workers, groups, done, ran, g, Finalizing(0, true));
      assert InPlace(workers[g], groups[g], ran);
      FailIf(true);
      workers := workers[g := Finalizing(0, true)];
    }

    /** What an attempt returned becomes known. */
    ghost method Learn(g: nat, p: nat, result: Returned)
      requires Working() && g < |workers| && workers[g] == Attempting(p) && p < |groups[g].items|
      modifies this`results
      ensures results == old(results)[groups[g].items[p] := result] && Recorded({groups[g].items[p]})
      ensures groups[g].items[p] < |ids| && AllKnow() && RunOnce() && Seen(Running(p + 1, result.stops), groups[g].items, ran, results)
    {
      var i := groups[g].items[p];
      HeadItem(g, p);
      HeadReturns(g, p, result);
      StillKnown(g, p, result);
      AnswersStay(i, result);
      StillInTurn(lookup, runs, results, i, result);
      results := results[i := result];
    }

    lemma HeadReturns(g: nat, p: nat, result: Returned)
      requires Working() && g < |workers| && workers[g] == Attempting(p) && p < |groups[g].items|
      ensures Seen(Running(p + 1, result.stops), groups[g].items, ran, results[groups[g].items[p] := result])
    {
      var items := groups[g].items;
      assert items[p] in results[items[p] := result];
      StillKnown(g, p, result);
    }

    lemma AnswersStay(i: nat, result: Returned)
      requires Booked() && i !in results && i !in done
      ensures forall j: nat :: j < |ids| && completed[j] ==>
        j != i && Answered(ids, lookup, results[i := result], batchFailed, j, outcomes[j].error)
    {
      forall j: nat | j < |ids| && completed[j]
        ensures j != i && Answered(ids, lookup, results[i := result], batchFailed, j, outcomes[j].error)
      {
        assert AnswerAt(j);
        StillAnswered(ids, lookup, results, batchFailed, j, outcomes[j].error, i, result);
      }
    }

    /** An item is answered and its worker moves on. */
    method Settle(g: nat, i: nat, error: Option<Cause>, next: Worker)
      requires Recorded({i}) && i < |ids| && (i in done || Answered(ids, lookup, results, batchFailed, i, error))
      requires Grouped(|ids|) && AllRefused() && AllKnow() && RunOnce() && g < |workers|
      requires Walks(workers[g := next], groups, done + {i}, ran) && Knows(next, groups[g].items)
      modifies this`workers, this`reports, this`done, this`batchFailed, outcomes, completed
      ensures Working() && workers == old(workers)[g := next]
    {
      Complete(i, error);
      workers := workers[g := next];
      forall h: nat | h < |groups| ensures Knows(workers[h], groups[h].items) {
        if h != g { assert old(Knows(workers[h], groups[h].items)); }
      }
    }

    /** The attempt returns. */
    method EndItem(g: nat, result: Returned)
      requires Working() && g < |workers| && workers[g].Attempting? && workers[g].position < |groups[g].items|
      modifies this`workers, this`results, this`reports, this`done, this`batchFailed, outcomes, completed
      ensures Working() && |workers| == old(|workers|) && workers == old(workers)[g := workers[g]]
      ensures Left(workers[g], |groups[g].items|) < Left(old(workers[g]), |groups[g].items|)
    {
      var p, i := workers[g].position, groups[g].items[workers[g].position];
      PassedKeepsWalks(ids, lookup, workers, groups, owner, done, ran, g, result.stops);
      Learn(g, p, result);
      Settle(g, i, Reported(result.error), Running(p + 1, result.stops));
    }

    lemma StoppedItem(g: nat, p: nat, error: int)
      requires Working() && g < |workers| && workers[g] == Running(p, Some(error)) && p < |groups[g].items|
      ensures var i, next := groups[g].items[p], Running(p + 1, Some(error));
        && Answered(ids, lookup, results, batchFailed, i, Some(AccountStopped(error)))
        && Walks(workers[g := next], groups, done + {i}, ran) && Knows(next, groups[g].items)
    {
      var items := groups[g].items;
      assert StoppedBefore(lookup, results, items[p], error) && StoppedAt(items, p + 1, results, error) by {
        OneAccount(g);
        assert Knows(workers[g], items);
        StoppedLater(lookup, items, groups[g].account, p, results, error);
      }
      assert Answered(ids, lookup, results, batchFailed, items[p], Some(AccountStopped(error))) by {
        HeadItem(g, p);
      }
      PassedKeepsWalks(ids, lookup, workers, groups, owner, done, ran, g, Some(error));
    }

    lemma OneAccount(g: nat)
      requires Grouped(|ids|) && g < |groups|
      ensures forall q: nat :: q < |groups[g].items| ==> lookup(groups[g].items[q]).account == groups[g].account
    {
      forall q: nat | q < |groups[g].items| ensures lookup(groups[g].items[q]).account == groups[g].account {
        assert Seat(ids, lookup, groups, owner, |ids|, g, q);
      }
    }

    /** Items of a stopped account are answered without being attempted. */
    method SkipItem(g: nat)
      requires Working() && g < |workers| && workers[g].Running? && workers[g].stopped.Some?
      requires workers[g].position < |groups[g].items|
      modifies this`workers, this`reports, this`done, this`batchFailed, outcomes, completed
      ensures Working() && |workers| == old(|workers|) && workers == old(workers)[g := workers[g]]
      ensures Left(workers[g], |groups[g].items|) < Left(old(workers[g]), |groups[g].items|)
    {
      var p, stopped := workers[g].position, workers[g].stopped;
      var i := groups[g].items[p];
      StoppedItem(g, p, stopped.value);
      Settle(g, i, Some(AccountStopped(stopped.value)), Running(p + 1, stopped));
    }

    /** The walk, or what follows it, is over. */
    method Proceed(g: nat)
      requires Working() && g < |workers|
      requires workers[g].Running? || workers[g].Finalizing?
      requires workers[g].position == |groups[g].items|
      modifies this`workers
      ensures Working() && |workers| == old(|workers|) && workers == old(workers)[g := workers[g]]
      ensures Left(workers[g], |groups[g].items|) < Left(old(workers[g]), |groups[g].items|)
    {
      var w, items := workers[g], groups[g].items;
      forall q: nat | q < |items| ensures ItemOK(w, q, items[q] in done, items[q] in ran) {
      }
      var next := if w.Running? then Finalizing(0, false) else Done(false);
      EndKeepsWalks(workers, groups, done, ran, g, next);
      workers := workers[g := next];
    }

    /** After the walk: answers what a panic left open. */
    method FinishItem(g: nat)
      requires Working() && g < |workers| && workers[g].Finalizing? && workers[g].position < |groups[g].items|
      modifies this`workers, this`reports, this`done, this`batchFailed, outcomes, completed
      ensures Working() && |workers| == old(|workers|) && workers == old(workers)[g := workers[g]]
      ensures Left(workers[g], |groups[g].items|) < Left(old(workers[g]), |groups[g].items|)
    {
      var w, items := workers[g], groups[g].items;
      var p := w.position;
      assert Seat(ids, lookup, groups, owner, |ids|, g, p) && ItemOK(w, p, items[p] in done, items[p] in ran);
      assert Knows(w, groups[g].items);
      ghost var next := Finalizing(p + 1, w.panicked);
      forall q: nat | q < |items| ensures ItemOK(next, q, items[q] in done + {items[p]}, items[q] in ran) {
        assert ItemOK(w, q, items[q] in done, items[q] in ran);
      }
      StepKeepsWalks(ids, lookup, workers, groups, owner, done, ran, g, p, next, done + {items[p]}, ran);
      Settle(g, items[p], if w.panicked then Some(ItemPanicked) else None, Finalizing(p + 1, w.panicked));
    }

    /** The worker dies outside its inner recovery. */
    method Die(g: nat)
      requires Working() && g < |workers| && !workers[g].Done? && !steady
      modifies this`workers, this`batchFailed
      ensures Working() && workers == old(workers)[g := Done(true)] && batchFailed
    {
      EndKeepsWalks(workers, groups, done, ran, g, Done(true));
      FailIf(true);
      workers := workers[g := Done(true)];
    }

    /** Any worker takes a step, with any result. */
    method StepWorker(g: nat)
      requires Working() && g < |workers| && !workers[g].Done?
      modifies this`workers, this`runs, this`ran, this`results, this`reports, this`done, this`batchFailed, outcomes, completed
      ensures Working() && |workers| == old(|workers|)
      ensures TotalLeft(workers, groups) < TotalLeft(old(workers), groups)
    {
      var died: bool, panicked: bool, result: Returned := *, *, *;
      assert InPlace(workers[g], groups[g], ran);
      if died && !steady {
        Die(g);
      } else if workers[g].Attempting? {
        if panicked && !steady { PanicItem(g); } else { EndItem(g, result); }
      } else if workers[g].Running? && workers[g].position < |groups[g].items| {
        if workers[g].stopped.Some? { SkipItem(g); } else { BeginItem(g); }
      } else if workers[g].Finalizing? && workers[g].position < |groups[g].items| {
        FinishItem(g);
      } else {
        Proceed(g);
      }
      LessLeft(old(workers), groups, g, workers[g]);
    }

    /** `workers.Wait()`: every interleaving of the workers. */
    method RunWorkers()
      requires Working()
      modifies this`workers, this`runs, this`ran, this`results, this`reports, this`done, this`batchFailed, outcomes, completed
      ensures Working()
      ensures forall g: nat :: g < |workers| ==> workers[g].Done?
    {
      var active := set g: nat | g < |workers| && !workers[g].Done?;
      while active != {}
        invariant Working()
        invariant active == set g: nat | g < |workers| && !workers[g].Done?
        decreases TotalLeft(workers, groups)
      {
        var g :| g in active;
        StepWorker(g);
        active := set h: nat | h < |workers| && !workers[h].Done?;
      }
      forall g: nat | g < |workers| ensures workers[g].Done? { assert g !in active; }
    }

    /** Only a worker that panicked leaves an input unanswered. */
    lemma LeftOpen(i: nat)
      requires Working() && (forall g: nat :: g < |workers| ==> workers[g].Done?) && i < |ids| && i !in done
      ensures batchFailed
    {
      assert Refusal(ids, lookup, i).None? && PlacedIn(groups, owner, i);
      var g, p := owner[i].0, owner[i].1;
      assert ItemOK(workers[g], p, i in done, i in ran) && Knows(workers[g], groups[g].items);
    }

    /** The last loop: whatever no worker answered. */
    method AnswerRest()
      requires Working() && forall g: nat :: g < |workers| ==> workers[g].Done?
      modifies this`reports, this`done, this`batchFailed, outcomes, completed
      ensures Booked() && forall i: nat :: i < |ids| ==> completed[i]
    {
      forall i: nat | i < |ids| && i !in done ensures batchFailed { LeftOpen(i); }
      for index := 0 to |ids|
        invariant Booked() && AllRefused() && old(done) <= done
        invariant forall i: nat :: i < |ids| && i !in done ==> batchFailed
        invariant forall i: nat :: i < index ==> i in done
      {
        if !completed[index] {
          FailIf(true);
          Complete(index, Some(WorkerStopped));
        }
      }
    }
  }

  /** `DeleteAliases`: one outcome per input, in input order, each reported exactly once. No
      alias is run twice, and an outcome is what the input's own run returned. An input that was
      not run was refused for its stated reason, or its account had been stopped by an earlier
      run, or the whole batch failed, which takes a panic. The inputs of an account run in
      order, and none after the one that stopped it. */
  method DeleteAliases(ids: seq<int>, lookup: nat -> Lookup, steady: bool) returns (
    r: Result<seq<Outcome>, Cause>, batchFailed: bool, ghost reports: seq<nat>, ghost runs: seq<nat>, ghost results: map<nat, Returned>
  )
    requires steady ==> forall i: nat :: !lookup(i).panicked
    ensures r.Failure? <==> ids == []
    ensures steady ==> !batchFailed
    ensures r.Success? ==> |r.value| == |ids| && forall i: nat :: i < |ids| ==> r.value[i].aliasID == ids[i]
    ensures r.Success? ==> forall i: nat :: i < |ids| ==> Answered(ids, lookup, results, batchFailed, i, r.value[i].error)
    ensures r.Success? ==> Distinct(reports) && forall i: nat :: i in reports <==> i < |ids|
    ensures r.Success? ==> Distinct(runs) && forall i: nat :: i in runs ==> i < |ids| && Refusal(ids, lookup, i).None?
    ensures r.Success? ==> (forall i: nat :: i in results ==> i in runs) && InTurn(lookup, runs, results)
  {
    reports, runs, results, batchFailed := [], [], map[], false;
    if |ids| == 0 {
      return Failure(NotPositive), batchFailed, reports, runs, results;
    }
    var run := new DeletionRun(ids, lookup, steady);
    run.Schedule();
    run.Start();
    run.RunWorkers();
    run.AnswerRest();
    batchFailed, reports, runs, results := run.batchFailed, run.reports, run.runs, run.results;
    forall i: nat | i < |ids|
      ensures run.outcomes[i].aliasID == ids[i] && Answered(ids, lookup, results, batchFailed, i, run.outcomes[i].error)
    {
      assert run.completed[i] && run.AnswerAt(i);
    }
    r := Success(run.outcomes[..]);
  }

  /** What that means for one input. */
  lemma InputIsAccounted(
    ids: seq<int>, lookup: nat -> Lookup, results: map<nat, Returned>, batchFailed: bool, i: nat, error: Option<Cause>
  )
    requires i < |ids| && Answered(ids, lookup, results, batchFailed, i, error)
    requires forall j: nat :: j in results ==> Refusal(ids, lookup, j).None?
    ensures error.None? ==> i in results && results[i].error.None?
    ensures ids[i] < 1 ==> error == Some(NotPositive)
    ensures ids[i] >= 1 && !FirstUse(ids, i) ==> error == Some(Duplicate)
    ensures !batchFailed && Refusal(ids, lookup, i).None? && i !in results ==>
      exists j: nat :: j < i && j in results && lookup(j).account == lookup(i).account && results[j].stops.Some?
  {
  }

  /** Once an attempt has stopped its account, no later input of that account is attempted, and
      unless a panic intervenes each of them is answered with the error that stopped it. */
  lemma StoppedAccount(
    ids: seq<int>, lookup: nat -> Lookup, runs: seq<nat>, results: map<nat, Returned>, batchFailed: bool,
    i: nat, error: Option<Cause>, j: nat
  )
    requires InTurn(lookup, runs, results) && (forall k: nat :: k in results ==> k in runs)
    requires Answered(ids, lookup, results, batchFailed, i, error) && Refusal(ids, lookup, i).None?
    requires j < i && j in results && lookup(j).account == lookup(i).account && results[j].stops.Some?
    ensures i !in runs
    ensures !batchFailed ==> error == Some(AccountStopped(results[j].stops.value))
  {
    LastOfAccount(lookup, runs, results, j, i);
    if i !in results && error.value.AccountStopped? {
      var k: nat :| k < i && k in results && lookup(k).account == lookup(i).account && results[k].stops == Some(error.value.error);
      if j < k {
        LastOfAccount(lookup, runs, results, j, k);
      } else if k < j {
        LastOfAccount(lookup, runs, results, k, j);
      }
    }
  }

  /** The attempt that stopped an account is its last one. */
  lemma LastOfAccount(lookup: nat -> Lookup, runs: seq<nat>, results: map<nat, Returned>, j: nat, i: nat)
    requires InTurn(lookup, runs, results) && j in runs && j in results && results[j].stops.Some?
    requires lookup(j).account == lookup(i).account && j < i
    ensures i !in runs
  {
    assert i in runs ==> false;
  }
}
