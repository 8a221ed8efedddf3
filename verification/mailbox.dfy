/** An IMAP mailbox as section 2.3.1 of RFC 3501 describes it: strictly increasing UIDs,
    addressed by 1-based sequence numbers, from which other clients may expunge at any time
    and to which new mail is appended with UIDs from UIDNEXT on. */
module Mailboxes {

  const UID_LIMIT := 0x1_0000_0000

  predicate InOrderAt(s: seq<nat>, i: nat, j: nat)
    requires i < |s| && j < |s|
  {
    s[i] < s[j]
  }

  predicate Ascending(s: seq<nat>) {
    forall i, j :: 0 <= i < j < |s| ==> InOrderAt(s, i, j)
  }

  /** The pairwise reading of `Ascending`, for the proofs that need it. */
  lemma Pairs(s: seq<nat>)
    requires Ascending(s)
    ensures forall i, j :: 0 <= i < j < |s| ==> s[i] < s[j]
  {
    forall i, j | 0 <= i < j < |s| ensures s[i] < s[j] {
      assert InOrderAt(s, i, j);
    }
  }

  function Below(s: seq<nat>, bound: nat): set<nat> {
    set u | u in s && u < bound
  }

  function Elements(s: seq<nat>): set<nat> {
    set u | u in s
  }

  /** What any number of expunges and appends can turn `before` into, when no UID at or above
      `uidNext` had been assigned in `before`. */
  predicate Evolves(before: seq<nat>, after: seq<nat>, uidNext: nat) {
    && Ascending(after)
    && (forall k :: 0 <= k < |after| ==> 0 < after[k])
    && Below(after, uidNext) <= Elements(before)
  }

  lemma EvolvesRefl(s: seq<nat>, uidNext: nat)
    requires Ascending(s) && forall k :: 0 <= k < |s| ==> 0 < s[k]
    ensures Evolves(s, s, uidNext)
  {
  }

  lemma EvolvesTrans(a: seq<nat>, b: seq<nat>, c: seq<nat>, next: nat, later: nat)
    requires next <= later && Evolves(a, b, next) && Evolves(b, c, later)
    ensures Evolves(a, c, next)
  {
    forall u | u in Below(c, next) ensures u in Elements(a) {
      assert u in Below(c, later) && u in Elements(b) && u in Below(b, next);
    }
  }

  lemma EvolvesWeaken(a: seq<nat>, b: seq<nat>, next: nat, later: nat)
    requires next <= later && Evolves(a, b, later)
    ensures Evolves(a, b, next)
  {
    forall u | u in Below(b, next) ensures u in Elements(a) {
      assert u in Below(b, later);
    }
  }

  lemma OldElement(before: seq<nat>, after: seq<nat>, uidNext: nat, u: nat)
    requires Evolves(before, after, uidNext) && u in after && u < uidNext
    ensures u in before
  {
    assert u in Below(after, uidNext);
    assert u in Elements(before);
  }

  /** The elements of s in the half-open interval (lo, hi], in order. */
  function Interval(s: seq<nat>, lo: nat, hi: nat): (r: seq<nat>)
    ensures |r| <= |s|
  {
    if s == [] then
      []
    else
      (if lo < s[0] <= hi then [s[0]] else []) + Interval(s[1..], lo, hi)
  }

  lemma {:induction false} IntervalMembers(s: seq<nat>, lo: nat, hi: nat)
    ensures forall u :: u in Interval(s, lo, hi) <==> u in s && lo < u <= hi
  {
    if s != [] {
      assert s == [s[0]] + s[1..];
      IntervalMembers(s[1..], lo, hi);
    }
  }

  lemma {:induction false} IntervalAscending(s: seq<nat>, lo: nat, hi: nat)
    requires Ascending(s)
    ensures Ascending(Interval(s, lo, hi))
  {
    Pairs(s);
    if s != [] {
      IntervalAscending(s[1..], lo, hi);
      IntervalMembers(s[1..], lo, hi);
      var rest := Interval(s[1..], lo, hi);
      Pairs(rest);
      forall k | 0 <= k < |rest| ensures s[0] < rest[k] {
        assert rest[k] in rest;
      }
    }
  }

  lemma {:induction false} IntervalEmpty(s: seq<nat>, lo: nat, hi: nat)
    requires forall k :: 0 <= k < |s| ==> !(lo < s[k] <= hi)
    ensures Interval(s, lo, hi) == []
  {
    if s != [] {
      IntervalEmpty(s[1..], lo, hi);
    }
  }

  lemma IntervalStep(s: seq<nat>, lo: nat, hi: nat)
    requires s != []
    ensures lo < s[0] <= hi ==> Interval(s, lo, hi) == [s[0]] + Interval(s[1..], lo, hi)
    ensures !(lo < s[0] <= hi) ==> Interval(s, lo, hi) == Interval(s[1..], lo, hi)
  {
  }

  lemma {:induction false} IntervalFrom(s: seq<nat>, k: nat, from: nat, to: nat, lo: nat, hi: nat)
    requires k <= |s| && from <= to <= |s|
    requires forall i :: 0 <= i < |s| ==> (lo < s[i] <= hi <==> from <= i < to)
    ensures Interval(s[k..], lo, hi) == if k >= to then [] else s[if k < from then from else k..to]
    decreases |s| - k
  {
    if k < |s| {
      IntervalStep(s[k..], lo, hi);
      assert s[k..][0] == s[k] && s[k..][1..] == s[k + 1..];
      IntervalFrom(s, k + 1, from, to, lo, hi);
      if from <= k < to { assert [s[k]] + s[k + 1..to] == s[k..to]; }
    }
  }

  /** In an ascending sequence an interval is a contiguous slice. */
  lemma IntervalIsSlice(s: seq<nat>, from: nat, to: nat, lo: nat, hi: nat)
    requires Ascending(s) && from <= to <= |s|
    requires from > 0 ==> s[from - 1] <= lo
    requires from < to ==> lo < s[from] && s[to - 1] <= hi
    requires to < |s| ==> s[to] > hi
    ensures Interval(s, lo, hi) == s[from..to]
  {
    forall i | 0 <= i < |s| ensures lo < s[i] <= hi <==> from <= i < to {
      if i < from {
        assert i == from - 1 || InOrderAt(s, i, from - 1);
      } else if i < to {
        assert (i == from || InOrderAt(s, from, i)) && (i == to - 1 || InOrderAt(s, i, to - 1));
      } else {
        assert i == to || InOrderAt(s, to, i);
      }
    }
    IntervalFrom(s, 0, from, to, lo, hi);
    assert s[0..] == s;
  }

  /** Two ascending sequences with the same elements are equal. */
  lemma {:induction false} AscendingUnique(s: seq<nat>, t: seq<nat>)
    requires Ascending(s) && Ascending(t)
    requires forall u :: u in s <==> u in t
    ensures s == t
  {
    Pairs(s);
    Pairs(t);
    if t != [] { assert t[0] in t; }
    if s != [] {
      assert s[0] in t;
      assert s[0] == t[0];
      forall u ensures u in s[1..] <==> u in t[1..] {
        if u in s[1..] { assert u in s && u in t && u != t[0]; }
        if u in t[1..] { assert u in t && u in s && u != s[0]; }
      }
      AscendingUnique(s[1..], t[1..]);
    }
  }

  /** The element at 0-based position k was at position k or later before the expunges. */
  lemma {:induction false} ExpungeShifts(before: seq<nat>, after: seq<nat>, uidNext: nat, k: nat)
    requires Ascending(before) && Evolves(before, after, uidNext)
    requires k < |after| && after[k] < uidNext
    ensures k < |before| && before[k] <= after[k]
  {
    OldElement(before, after, uidNext, after[k]);
    Pairs(before);
    Pairs(after);
    if k > 0 {
      ExpungeShifts(before, after, uidNext, k - 1);
      var p :| 0 <= p < |before| && before[p] == after[k];
      assert before[k - 1] <= after[k - 1] < after[k] == before[p];
    }
  }

  ghost predicate SamePrefix(a: seq<nat>, b: seq<nat>, n: nat) {
    n <= |a| && n <= |b| && forall k :: 0 <= k < n ==> a[k] == b[k]
  }

  /** Position k unmoved means nothing at or before it was expunged. */
  lemma {:induction false} StablePrefix(before: seq<nat>, after: seq<nat>, uidNext: nat, k: nat)
    requires Ascending(before) && Evolves(before, after, uidNext)
    requires k < |before| && k < |after| && before[k] == after[k] < uidNext
    ensures SamePrefix(after, before, k + 1)
  {
    Pairs(before);
    Pairs(after);
    if k > 0 {
      OldElement(before, after, uidNext, after[k - 1]);
      ExpungeShifts(before, after, uidNext, k - 1);
      var p :| 0 <= p < |before| && before[p] == after[k - 1];
      assert p == k - 1;
      StablePrefix(before, after, uidNext, k - 1);
    }
  }

  predicate PossibleLater(uids: seq<nat>, uidNext: nat, content: seq<nat>, next: nat) {
    uidNext <= next < UID_LIMIT && Evolves(uids, content, uidNext) && forall k :: 0 <= k < |content| ==> content[k] < next
  }

  datatype Item = Item(sequence: nat, uid: nat)

  /** A FETCH of sequence numbers first..last answered from one view of the mailbox. */
  predicate Honest(items: seq<Item>, uids: seq<nat>, first: nat, last: nat) {
    forall i :: 0 <= i < |items| ==>
      first <= items[i].sequence <= last && 1 <= items[i].sequence <= |uids| && uids[items[i].sequence - 1] == items[i].uid
  }

  /** A UID SEARCH of (lo, hi] answered from one view of the mailbox. */
  predicate Answers(found: seq<nat>, uids: seq<nat>, lo: nat, hi: nat) {
    && (forall u :: u in found ==> u in uids && lo < u <= hi)
    && (forall u :: u in uids && lo < u <= hi ==> u in found)
  }

  function View(uids: seq<nat>, first: nat, last: nat): (r: seq<Item>)
    requires 1 <= first <= last <= |uids|
  {
    seq(last - first + 1, i requires 0 <= i < last - first + 1 => Item(first + i, uids[first + i - 1]))
  }

  /** The upstream mailbox. `Interfere` is everything other clients and deliveries may do
      between two commands. On a steady mailbox nothing is expunged and no command fails, but
      new mail may arrive; on a quiet one nothing happens at all. */
  class Mailbox {
    var uids: seq<nat>
    var uidNext: nat
    const uidValidity: nat
    const steady: bool
    const quiet: bool

    ghost predicate Valid()
      reads this
    {
      && (quiet ==> steady)
      && Ascending(uids)
      && 1 <= uidNext < UID_LIMIT
      && forall k :: 0 <= k < |uids| ==> 0 < uids[k] < uidNext
    }

    /** A state this mailbox can be in some time after it held `was` with UIDNEXT `next`. */
    ghost predicate Since(was: seq<nat>, next: nat)
      reads this
    {
      && Valid() && next <= uidNext && Evolves(was, uids, next)
      && (steady ==> was <= uids) && (quiet ==> uids == was && uidNext == next)
    }

    lemma SinceTrans(was: seq<nat>, next: nat, mid: seq<nat>, midNext: nat)
      requires next <= midNext && Evolves(was, mid, next)
      requires (steady ==> was <= mid) && (quiet ==> mid == was && midNext == next)
      requires Since(mid, midNext)
      ensures Since(was, next)
    {
      EvolvesTrans(was, mid, uids, next, midNext);
    }

    constructor (uids: seq<nat>, uidNext: nat, uidValidity: nat, steady: bool, quiet: bool)
      requires Ascending(uids) && 1 <= uidNext < UID_LIMIT && forall k :: 0 <= k < |uids| ==> 0 < uids[k] < uidNext
      requires quiet ==> steady
      ensures Valid() && this.uids == uids && this.uidNext == uidNext
      ensures this.uidValidity == uidValidity && this.steady == steady && this.quiet == quiet
    {
      this.uids, this.uidNext, this.uidValidity, this.steady, this.quiet := uids, uidNext, uidValidity, steady, quiet;
    }

    method Interfere()
      requires Valid()
      modifies this
      ensures Since(old(uids), old(uidNext))
    {
      if !quiet {
        EvolvesRefl(uids, uidNext);
        assert PossibleLater(uids, uidNext, uids, uidNext);
        var next: nat, content: seq<nat> :| PossibleLater(uids, uidNext, content, next) && (steady ==> uids <= content);
        uids := content;
        uidNext := next;
        assert PossibleLater(old(uids), old(uidNext), uids, uidNext);
      } else {
        EvolvesRefl(uids, uidNext);
      }
    }

    /** FETCH: items in any order, possibly incomplete or repeated, all true of one view. */
    method Fetch(first: nat, last: nat) returns (failed: bool, items: seq<Item>)
      requires Valid() && 1 <= first <= last
      modifies this
      ensures Since(old(uids), old(uidNext))
      ensures Honest(items, uids, first, last)
      ensures steady && last <= |uids| ==> !failed && items == View(uids, first, last)
    {
      Interfere();
      if steady && last <= |uids| {
        failed, items := false, View(uids, first, last);
      } else {
        failed := *;
        assert Honest([], uids, first, last);
        items :| Honest(items, uids, first, last);
      }
    }

    /** UID SEARCH over (lo, hi]: every live UID of the range, in any order. */
    method UIDSearch(lo: nat, hi: nat) returns (failed: bool, found: seq<nat>)
      requires Valid()
      modifies this
      ensures Since(old(uids), old(uidNext))
      ensures Answers(found, uids, lo, hi)
      ensures steady ==> !failed && found == Interval(uids, lo, hi)
    {
      Interfere();
      if steady {
        IntervalMembers(uids, lo, hi);
        failed, found := false, Interval(uids, lo, hi);
      } else {
        failed := *;
        found := Interval(uids, lo, hi);
        IntervalMembers(uids, lo, hi);
        assert Answers(found, uids, lo, hi);
        found :| Answers(found, uids, lo, hi);
      }
    }
  }
}
