/** UTF-8 text as bytes: well-formedness as in section 4 of RFC 3629, Go's `ToValidUTF8`, and
    cutting a text at a byte limit without splitting a character. */
module Utf8Text {

  type Byte = b: int | 0 <= b < 256

  const REPLACEMENT: seq<Byte> := [0xEF, 0xBF, 0xBD]
  const ELLIPSIS: seq<Byte> := [0x2E, 0x2E, 0x2E]

  predicate Tail(b: Byte) {
    0x80 <= b <= 0xBF
  }

  /** `utf8.RuneStart`. */
  predicate RuneStart(b: Byte) {
    !Tail(b)
  }

  /** The length of the well-formed character a text starts with, or 0. */
  function RuneLength(s: seq<Byte>): (n: nat)
    ensures n <= |s| && n <= 4
    ensures n > 0 ==> RuneStart(s[0]) && forall k :: 0 < k < n ==> Tail(s[k])
  {
    if s == [] then 0
    else if s[0] <= 0x7F then 1
    else if 0xC2 <= s[0] <= 0xDF && |s| >= 2 && Tail(s[1]) then 2
    else if 0xE0 <= s[0] <= 0xEF && |s| >= 3 && Tail(s[1]) && Tail(s[2])
      && (s[0] == 0xE0 ==> s[1] >= 0xA0) && (s[0] == 0xED ==> s[1] <= 0x9F) then 3
    else if 0xF0 <= s[0] <= 0xF4 && |s| >= 4 && Tail(s[1]) && Tail(s[2]) && Tail(s[3])
      && (s[0] == 0xF0 ==> s[1] >= 0x90) && (s[0] == 0xF4 ==> s[1] <= 0x8F) then 4
    else 0
  }

  /** `utf8.ValidString`. */
  predicate Valid(s: seq<Byte>) {
    s == [] || (RuneLength(s) > 0 && Valid(s[RuneLength(s)..]))
  }

  /** `strings.ToValidUTF8` with the replacement character: one for each run of bad bytes. */
  function ToValid(s: seq<Byte>, inRun: bool): seq<Byte> {
    if s == [] then []
    else if RuneLength(s) > 0 then s[..RuneLength(s)] + ToValid(s[RuneLength(s)..], false)
    else (if inRun then [] else REPLACEMENT) + ToValid(s[1..], true)
  }

  lemma RuneOfConcat(a: seq<Byte>, b: seq<Byte>)
    requires RuneLength(a) > 0
    ensures RuneLength(a + b) == RuneLength(a)
  {
    assert forall k :: 0 <= k < |a| ==> (a + b)[k] == a[k];
  }

  lemma RuneThenValid(a: seq<Byte>, b: seq<Byte>)
    requires RuneLength(a) > 0 && Valid(a[RuneLength(a)..] + b)
    ensures Valid(a + b)
  {
    var s := a + b;
    RuneOfConcat(a, b);
    assert s[RuneLength(a)..] == a[RuneLength(a)..] + b;
  }

  lemma {:induction false} ValidConcat(a: seq<Byte>, b: seq<Byte>)
    requires Valid(a) && Valid(b)
    ensures Valid(a + b)
  {
    if a == [] {
      assert a + b == b;
    } else {
      var n := RuneLength(a);
      ValidConcat(a[n..], b);
      RuneThenValid(a, b);
    }
  }

  lemma SingleRune(s: seq<Byte>)
    requires RuneLength(s) > 0
    ensures Valid(s[..RuneLength(s)])
  {
    var n := RuneLength(s);
    assert RuneLength(s[..n]) == n;
    assert s[..n][n..] == [];
  }

  lemma {:induction false} ToValidIsValid(s: seq<Byte>, inRun: bool)
    ensures Valid(ToValid(s, inRun))
  {
    if s == [] {
    } else if RuneLength(s) > 0 {
      ToValidIsValid(s[RuneLength(s)..], false);
      SingleRune(s);
      ValidConcat(s[..RuneLength(s)], ToValid(s[RuneLength(s)..], false));
    } else {
      ToValidIsValid(s[1..], true);
      assert RuneLength(REPLACEMENT) == 3 && REPLACEMENT[3..] == [];
      ValidConcat(if inRun then [] else REPLACEMENT, ToValid(s[1..], true));
    }
  }

  lemma {:induction false} ToValidOfValid(s: seq<Byte>, inRun: bool)
    requires Valid(s)
    ensures ToValid(s, inRun) == s
  {
    if s != [] {
      ToValidOfValid(s[RuneLength(s)..], false);
    }
  }

  /** In a valid text the valid prefixes are exactly those that end before a character. */
  lemma {:induction false} Boundary(s: seq<Byte>, end: nat)
    requires Valid(s) && end <= |s|
    ensures Valid(s[..end]) <==> end == |s| || RuneStart(s[end])
  {
    if end == |s| {
      assert s[..end] == s;
    } else if end == 0 {
      assert s[..end] == [];
    } else {
      var n := RuneLength(s);
      if end < n {
        assert Tail(s[end]);
        assert s[..end] + s[end..] == s;
        if Valid(s[..end]) {
          RuneOfConcat(s[..end], s[end..]);
        }
      } else {
        RuneOfConcat(s[..n], s[n..]);
        SingleRune(s);
        assert s[..end] == s[..n] + s[n..][..end - n];
        RuneOfConcat(s[..n], s[n..][..end - n]);
        assert RuneLength(s[..end]) == n;
        assert s[..end][n..] == s[n..][..end - n];
        Boundary(s[n..], end - n);
        assert s[n..][end - n..] == s[end..];
      }
    }
  }

  /** The longest valid prefix of at most `end` bytes. */
  function CutAt(s: seq<Byte>, end: nat): (cut: nat)
    requires end <= |s|
    ensures cut <= end && Valid(s[..cut])
    ensures forall k :: cut < k <= end ==> !Valid(s[..k])
  {
    if end == 0 || Valid(s[..end]) then end else CutAt(s, end - 1)
  }

  /** Cutting a valid text loses at most three bytes of the limit. */
  lemma CutIsTight(s: seq<Byte>, end: nat)
    requires Valid(s) && end <= |s|
    ensures end <= CutAt(s, end) + 3
  {
    if end > CutAt(s, end) + 3 {
      var k := CutAt(s, end);
      Boundary(s, k);
      Boundary(s, k + 1);
      Boundary(s, k + 2);
      Boundary(s, k + 3);
      Boundary(s, k + 4);
      FourTails(s, k + 1);
    }
  }

  lemma {:induction false} FourTails(s: seq<Byte>, at: nat)
    requires Valid(s) && at + 3 < |s|
    ensures RuneStart(s[at]) || RuneStart(s[at + 1]) || RuneStart(s[at + 2]) || RuneStart(s[at + 3])
  {
    var n := RuneLength(s);
    if at >= n {
      FourTails(s[n..], at - n);
    } else if n < |s| {
      Boundary(s, n);
      SingleRune(s);
    }
  }

  function Max0(limit: int): nat {
    if limit < 0 then 0 else limit
  }

  /** What any of the truncations keeps of a text. */
  function Truncated(value: seq<Byte>, limit: int): (r: seq<Byte>)
    ensures |r| <= Max0(limit)
  {
    var text := ToValid(value, false);
    if |text| <= Max0(limit) then text else text[..CutAt(text, Max0(limit))]
  }

  lemma TruncatedIsValid(value: seq<Byte>, limit: int)
    ensures Valid(Truncated(value, limit))
    ensures Valid(value) && |value| <= limit ==> Truncated(value, limit) == value
    ensures Valid(value) ==> Truncated(value, limit) <= value
  {
    ToValidIsValid(value, false);
    if Valid(value) { ToValidOfValid(value, false); }
  }

  lemma {:induction false} ToValidAfter(a: seq<Byte>, b: seq<Byte>)
    requires Valid(a)
    ensures ToValid(a + b, false) == a + ToValid(b, false)
  {
    if a == [] {
      assert a + b == b;
    } else {
      var n := RuneLength(a);
      RuneThenRest(a, b);
      ToValidAfter(a[n..], b);
      Regroup(a, n, ToValid(b, false));
    }
  }

  /** No character starts at any of the bytes, given what follows them. */
  ghost predicate AllBad(bad: seq<Byte>, rest: seq<Byte>) {
    forall k :: 0 <= k < |bad| ==> RuneLength(bad[k..] + rest) == 0
  }

  lemma StillBad(bad: seq<Byte>, rest: seq<Byte>)
    requires bad != [] && AllBad(bad, rest)
    ensures RuneLength(bad + rest) == 0 && AllBad(bad[1..], rest) && (bad + rest)[1..] == bad[1..] + rest
  {
    assert bad[0..] == bad;
    forall k | 0 <= k < |bad[1..]| ensures RuneLength(bad[1..][k..] + rest) == 0 {
      assert bad[1..][k..] == bad[k + 1..];
    }
  }

  lemma BadStep(s: seq<Byte>, inRun: bool)
    requires s != [] && RuneLength(s) == 0
    ensures ToValid(s, inRun) == (if inRun then [] else REPLACEMENT) + ToValid(s[1..], true)
  {
  }

  lemma Join(a: seq<Byte>, b: seq<Byte>, c: seq<Byte>)
    ensures a + b + c == a + (b + c)
  {
  }

  /** Inside a run bad bytes are dropped, and everything after them is kept. */
  lemma {:induction false} RunIsDropped(bad: seq<Byte>, text: seq<Byte>)
    requires Valid(text) && AllBad(bad, text)
    ensures ToValid(bad + text, true) == text
  {
    if bad == [] {
      assert bad + text == text;
      ToValidOfValid(text, true);
    } else {
      StillBad(bad, text);
      RunIsDropped(bad[1..], text);
      BadStep(bad + text, true);
    }
  }

  lemma RunIsReplaced(bad: seq<Byte>, text: seq<Byte>)
    requires bad != [] && Valid(text) && AllBad(bad, text)
    ensures ToValid(bad + text, false) == REPLACEMENT + text
  {
    StillBad(bad, text);
    RunIsDropped(bad[1..], text);
    BadStep(bad + text, false);
  }

  /** Bad bytes between two well-formed texts: both texts are kept around one replacement. */
  lemma BadBytesAreReplaced(a: seq<Byte>, bad: seq<Byte>, b: seq<Byte>)
    requires Valid(a) && Valid(b) && bad != [] && AllBad(bad, b)
    ensures ToValid(a + bad + b, false) == a + REPLACEMENT + b
  {
    RunIsReplaced(bad, b);
    ToValidAfter(a, bad + b);
    Join(a, bad, b);
    Join(a, REPLACEMENT, b);
  }

  lemma Regroup(a: seq<Byte>, n: nat, b: seq<Byte>)
    requires n <= |a|
    ensures a[..n] + (a[n..] + b) == a + b
  {
  }

  lemma RuneThenRest(a: seq<Byte>, b: seq<Byte>)
    requires RuneLength(a) > 0
    ensures var n := RuneLength(a); ToValid(a + b, false) == a[..n] + ToValid(a[n..] + b, false)
  {
    var n := RuneLength(a);
    RuneOfConcat(a, b);
    assert (a + b)[..n] == a[..n];
    assert (a + b)[n..] == a[n..] + b;
  }

  lemma {:induction false} OnlyTails(s: seq<Byte>)
    requires forall k :: 0 <= k < |s| ==> Tail(s[k])
    ensures ToValid(s, true) == []
  {
    if s != [] { OnlyTails(s[1..]); }
  }

  /** The bytes of a character that was cut do not make a character. */
  lemma BrokenRune(s: seq<Byte>, end: nat)
    requires Valid(s) && end <= |s| && CutAt(s, end) < end
    ensures RuneLength(s[CutAt(s, end)..end]) == 0
  {
    var k := CutAt(s, end);
    var b := s[k..end];
    var n := RuneLength(b);
    if n > 0 {
      SingleRune(b);
      assert s[k..end][..n] == s[k..k + n];
      assert s[..k] + s[k..k + n] == s[..k + n];
      ValidConcat(s[..k], b[..n]);
    }
  }

  /** They become one replacement character. */
  lemma RepairedRune(s: seq<Byte>, end: nat)
    requires Valid(s) && end <= |s| && CutAt(s, end) < end
    ensures ToValid(s[CutAt(s, end)..end], false) == REPLACEMENT
  {
    var k := CutAt(s, end);
    var b := s[k..end];
    BrokenRune(s, end);
    forall i | 0 < i < |b| ensures Tail(b[i]) {
      Boundary(s, k + i);
    }
    OnlyTails(b[1..]);
  }

  /** Cutting the bytes first and repairing them afterwards: the longest valid prefix, except
      that a four-byte character cut after its third byte is replaced instead of dropped. */
  lemma CutThenRepaired(s: seq<Byte>, limit: nat)
    requires Valid(s) && limit < |s|
    ensures var k := CutAt(s, limit);
      Truncated(s[..limit], limit) == s[..k] + (if k + 3 == limit then REPLACEMENT else [])
  {
    var k := CutAt(s, limit);
    CutIsTight(s, limit);
    var rest := s[k..limit];
    assert s[..limit] == s[..k] + rest;
    ToValidAfter(s[..k], rest);
    if k < limit {
      RepairedRune(s, limit);
      if k + 3 > limit { ReplacementIsCut(s[..k], limit); }
    }
  }

  lemma ReplacementIsCut(a: seq<Byte>, limit: nat)
    requires Valid(a) && |a| < limit < |a| + 3
    ensures var text := a + REPLACEMENT; text[..CutAt(text, limit)] == a
  {
    var text := a + REPLACEMENT;
    ReplacementIsValid();
    ValidConcat(a, REPLACEMENT);
    assert text[..|a|] == a;
    assert forall k :: |a| <= k < |text| ==> text[k] == REPLACEMENT[k - |a|];
    NoPrefixBetween(text, |a|, limit);
  }

  lemma ReplacementIsValid()
    ensures Valid(REPLACEMENT)
  {
    assert RuneLength(REPLACEMENT) == 3 && REPLACEMENT[3..] == [];
  }

  lemma {:induction false} NoPrefixBetween(text: seq<Byte>, from: nat, limit: nat)
    requires Valid(text) && from <= limit < |text| && Valid(text[..from])
    requires forall k :: from < k <= limit ==> Tail(text[k])
    ensures CutAt(text, limit) == from
    decreases limit
  {
    if from < limit {
      Boundary(text, limit);
      NoPrefixBetween(text, from, limit - 1);
    }
  }

  /** `truncateUTF8` of the mail parser. */
  method TruncateUTF8(value: seq<Byte>, limit: int) returns (r: seq<Byte>, changed: bool)
    ensures r == Truncated(value, limit) && Valid(r)
    ensures changed <==> r != value
  {
    TruncatedIsValid(value, limit);
    ToValidIsValid(value, false);
    r, changed := value, false;
    var bound := if limit < 0 then 0 else limit;
    if Valid(value) {
      ToValidOfValid(value, false);
    } else {
      r, changed := ToValid(value, false), true;
    }
    ghost var text := r;
    if |r| > bound {
      var end := bound;
      while end > 0 && !Valid(r[..end])
        invariant 0 <= end <= bound < |r|
        invariant CutAt(r, end) == CutAt(r, bound)
      {
        end := end - 1;
      }
      r, changed := r[..end], true;
    }
  }

  /** A text that does not fit is cut and, where there is room for it, marked. */
  function Ellipsized(value: seq<Byte>, limit: int): seq<Byte> {
    if limit <= 3 || |ToValid(value, false)| <= limit then Truncated(value, limit)
    else Truncated(value, limit - 3) + ELLIPSIS
  }

  lemma EllipsisIsValid()
    ensures Valid(ELLIPSIS)
  {
    assert ELLIPSIS[1..][1..][1..] == [];
  }

  /** Within the limit, well formed, unchanged if it fits, and otherwise at most three bytes
      short of the limit. */
  lemma EllipsizedIs(value: seq<Byte>, limit: nat)
    ensures |Ellipsized(value, limit)| <= limit && Valid(Ellipsized(value, limit))
    ensures |ToValid(value, false)| <= limit ==> Ellipsized(value, limit) == ToValid(value, false)
    ensures |ToValid(value, false)| > limit ==> |Ellipsized(value, limit)| >= limit - 3
    ensures Valid(value) && |value| <= limit ==> Ellipsized(value, limit) == value
  {
    var text := ToValid(value, false);
    ToValidIsValid(value, false);
    if Valid(value) { ToValidOfValid(value, false); }
    if limit > 3 && |text| > limit {
      TruncatedIsValid(value, limit - 3);
      EllipsisIsValid();
      ValidConcat(Truncated(value, limit - 3), ELLIPSIS);
      CutIsTight(text, limit - 3);
    } else {
      TruncatedIsValid(value, limit);
    }
  }

  /** `truncateUTF8` of the application log. */
  method TruncateWithEllipsis(value: seq<Byte>, limit: int) returns (r: seq<Byte>)
    ensures r == Ellipsized(value, limit) && |r| <= Max0(limit) && Valid(r)
    ensures Valid(value) && |value| <= limit ==> r == value
  {
    EllipsizedIs(value, Max0(limit));
    r := ToValid(value, false);
    ToValidIsValid(value, false);
    if Valid(value) { ToValidOfValid(value, false); }
    if limit <= 0 {
      return [];
    }
    if |r| <= limit {
      return;
    }
    ghost var start := if limit <= 3 then limit else limit - 3;
    var end := if limit <= 3 then limit else limit - 3;
    while end > 0 && !RuneStart(r[end])
      invariant 0 <= end <= start < |r|
      invariant CutAt(r, end) == CutAt(r, start)
    {
      Boundary(r, end);
      end := end - 1;
    }
    Boundary(r, end);
    r := r[..end];
    if limit > 3 {
      r := r + ELLIPSIS;
    }
  }
}
