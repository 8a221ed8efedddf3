/** The case-insensitive search of IMAP BODY and TEXT (section 6.4.4 of RFC 3501) over a
    message that arrives in arbitrary pieces. ASCII content. */
module StreamSearch {
  import opened Basics
  import opened Results

  type Ascii = b: int | 0 <= b < 128

  type Text = seq<Ascii>

  datatype Ending = More | EndOfFile | Broken

  /** One call of `Read`: it may deliver data together with the end of the stream. */
  datatype Read = Read(data: Text, ending: Ending)

  function LowerByte(b: Ascii): Ascii {
    if 65 <= b <= 90 then b + 32 else b
  }

  /** `bytes.ToLower`. */
  function Lower(s: Text): (r: Text)
    ensures |r| == |s| && forall i :: 0 <= i < |s| ==> r[i] == LowerByte(s[i])
  {
    seq(|s|, i requires 0 <= i < |s| => LowerByte(s[i]))
  }

  predicate At(text: Text, needle: Text, i: nat) {
    i + |needle| <= |text| && text[i..i + |needle|] == needle
  }

  /** `bytes.Contains`. */
  predicate Occurs(text: Text, needle: Text) {
    exists i: nat | i <= |text| :: At(text, needle, i)
  }

  /** One ASCII character, or the two cases of one letter. */
  predicate SameLetter(a: Ascii, b: Ascii) {
    a == b || (65 <= a <= 90 && b == a + 32) || (65 <= b <= 90 && a == b + 32)
  }

  predicate SameText(s: Text, t: Text) {
    |s| == |t| && forall i :: 0 <= i < |s| ==> SameLetter(s[i], t[i])
  }

  predicate FoldedAt(text: Text, pattern: Text, i: nat) {
    i + |pattern| <= |text| && SameText(text[i..i + |pattern|], pattern)
  }

  /** The pattern stands somewhere in the text, letters in whatever case. */
  ghost predicate OccursFolded(text: Text, pattern: Text) {
    exists i: nat | i <= |text| :: FoldedAt(text, pattern, i)
  }

  lemma SameTextIsLower(s: Text, t: Text)
    ensures SameText(s, t) <==> Lower(s) == Lower(t)
  {
    if Lower(s) == Lower(t) {
      forall i | 0 <= i < |s| ensures SameLetter(s[i], t[i]) {
        assert Lower(s)[i] == Lower(t)[i];
      }
    }
  }

  lemma SliceOfLower(text: Text, i: nat, n: nat)
    requires i + n <= |text|
    ensures Lower(text)[i..i + n] == Lower(text[i..i + n])
  {
  }

  lemma FoldedAtIsAt(text: Text, pattern: Text, i: nat)
    ensures FoldedAt(text, pattern, i) <==> At(Lower(text), Lower(pattern), i)
  {
    if i + |pattern| <= |text| {
      SliceOfLower(text, i, |pattern|);
      SameTextIsLower(text[i..i + |pattern|], pattern);
    }
  }

  /** Searching the folded pattern in the folded text is searching without regard to case. */
  lemma FoldingIgnoresCase(text: Text, pattern: Text)
    ensures Occurs(Lower(text), Lower(pattern)) <==> OccursFolded(text, pattern)
  {
    if Occurs(Lower(text), Lower(pattern)) {
      var i: nat :| i <= |text| && At(Lower(text), Lower(pattern), i);
      FoldedAtIsAt(text, pattern, i);
    }
    if OccursFolded(text, pattern) {
      var i: nat :| i <= |text| && FoldedAt(text, pattern, i);
      FoldedAtIsAt(text, pattern, i);
    }
  }

  /** The case of the pattern does not matter, nor does that of the text. */
  lemma CaseDoesNotMatter(text: Text, pattern: Text, otherText: Text, otherPattern: Text)
    requires SameText(text, otherText) && SameText(pattern, otherPattern)
    ensures OccursFolded(text, pattern) <==> OccursFolded(otherText, otherPattern)
  {
    FoldingIgnoresCase(text, pattern);
    FoldingIgnoresCase(otherText, otherPattern);
    SameTextIsLower(text, otherText);
    SameTextIsLower(pattern, otherPattern);
  }

  /** Everything up to the read that ends the stream. */
  function Content(stream: seq<Read>): Text {
    if stream == [] then []
    else if stream[0].ending.More? then stream[0].data + Content(stream[1..])
    else stream[0].data
  }

  /** How the stream ends; running dry is the end of the file. */
  function FinalEnding(stream: seq<Read>): Ending {
    if stream == [] then EndOfFile
    else if stream[0].ending.More? then FinalEnding(stream[1..])
    else stream[0].ending
  }

  function Suffix(s: Text, n: nat): Text {
    if n >= |s| then s else s[|s| - n..]
  }

  lemma SliceOfRest(all: Text, cut: nat, j: nat, n: nat)
    requires cut + j + n <= |all|
    ensures all[cut..][j..j + n] == all[cut + j..cut + j + n]
  {
  }

  lemma FoundInTail(seen: Text, more: Text, needle: Text)
    requires needle != [] && !Occurs(seen, needle) && Occurs(seen + more, needle)
    ensures Occurs(Suffix(seen, |needle| - 1) + more, needle)
  {
    var tail := Suffix(seen, |needle| - 1);
    var cut := |seen| - |tail|;
    var all, chunk := seen + more, tail + more;
    assert all[cut..] == chunk;
    var i: nat :| i <= |all| && At(all, needle, i);
    if i + |needle| <= |seen| {
      assert seen[i..i + |needle|] == all[i..i + |needle|];
      assert At(seen, needle, i);
    }
    SliceOfRest(all, cut, i - cut, |needle|);
    assert At(chunk, needle, i - cut);
  }

  lemma FoundInAll(seen: Text, more: Text, needle: Text)
    requires needle != [] && Occurs(Suffix(seen, |needle| - 1) + more, needle)
    ensures Occurs(seen + more, needle)
  {
    var tail := Suffix(seen, |needle| - 1);
    var cut := |seen| - |tail|;
    var all, chunk := seen + more, tail + more;
    assert all[cut..] == chunk;
    var j: nat :| j <= |chunk| && At(chunk, needle, j);
    SliceOfRest(all, cut, j, |needle|);
    assert At(all, needle, cut + j);
  }

  /** What has been seen need not be searched again, except for its last |needle| - 1 bytes. */
  lemma TailIsEnough(seen: Text, more: Text, needle: Text)
    requires needle != [] && !Occurs(seen, needle)
    ensures Occurs(seen + more, needle) <==> Occurs(Suffix(seen, |needle| - 1) + more, needle)
  {
    if Occurs(seen + more, needle) { FoundInTail(seen, more, needle); }
    if Occurs(Suffix(seen, |needle| - 1) + more, needle) { FoundInAll(seen, more, needle); }
  }

  lemma SuffixOfSuffix(seen: Text, more: Text, n: nat)
    ensures Suffix(Suffix(seen, n) + more, n) == Suffix(seen + more, n)
  {
  }

  lemma LowerConcat(a: Text, b: Text)
    ensures Lower(a + b) == Lower(a) + Lower(b)
    ensures Lower(Lower(a)) == Lower(a)
  {
  }

  lemma LowerSuffix(s: Text, n: nat)
    ensures Lower(Suffix(Lower(s), n)) == Suffix(Lower(s), n)
  {
  }

  lemma OccursLater(a: Text, b: Text, needle: Text)
    requires Occurs(a, needle)
    ensures Occurs(a + b, needle)
  {
    var i: nat :| i <= |a| && At(a, needle, i);
    assert (a + b)[i..i + |needle|] == a[i..i + |needle|];
    assert At(a + b, needle, i);
  }

  /** `readerContainsFold`: however the stream is cut into reads, the answer is that of a search
      of the whole content without regard to case; a failed read only matters if nothing was found before it. */
  method ReaderContainsFold(stream: seq<Read>, pattern: Text) returns (r: Result<bool, Ending>)
    ensures r == Success(true) <==> OccursFolded(Content(stream), pattern)
    ensures r == Success(false) <==> !OccursFolded(Content(stream), pattern) && FinalEnding(stream).EndOfFile?
    ensures r.Failure? <==> !OccursFolded(Content(stream), pattern) && FinalEnding(stream).Broken?
  {
    FoldingIgnoresCase(Content(stream), pattern);
    if |pattern| == 0 {
      assert At(Lower(Content(stream)), Lower(pattern), 0);
      return Success(true);
    }
    var needle := Lower(pattern);
    var tail: Text := [];
    ghost var seen: Text := [];
    var n := 0;
    while n < |stream|
      invariant 0 <= n <= |stream| && ReadSoFar(stream, n, seen)
      invariant !Occurs(Lower(seen), needle) && tail == Suffix(Lower(seen), |needle| - 1)
    {
      var read := stream[n];
      ReadOne(stream, n, seen);
      ChunkIs(seen, read.data, needle);
      seen := seen + read.data;
      if |read.data| > 0 {
        var chunk := Lower(tail + read.data);
        if Occurs(chunk, needle) {
          FoundEarly(stream, n, seen, needle);
          return Success(true);
        }
        tail := Suffix(chunk, |needle| - 1);
      }
      if read.ending.EndOfFile? {
        return Success(false);
      }
      if read.ending.Broken? {
        return Failure(Broken);
      }
      n := n + 1;
    }
    assert seen + [] == seen;
    return Success(false);
  }

  /** What the first n reads have left to come. */
  ghost predicate ReadSoFar(stream: seq<Read>, n: nat, seen: Text)
    requires n <= |stream|
  {
    Content(stream) == seen + Content(stream[n..]) && FinalEnding(stream) == FinalEnding(stream[n..])
  }

  lemma ReadOne(stream: seq<Read>, n: nat, seen: Text)
    requires n < |stream| && ReadSoFar(stream, n, seen)
    ensures seen + [] == seen
    ensures stream[n].ending.More? ==> ReadSoFar(stream, n + 1, seen + stream[n].data)
    ensures !stream[n].ending.More? ==> Content(stream) == seen + stream[n].data && FinalEnding(stream) == stream[n].ending
  {
    var rest := stream[n..];
    assert rest[0] == stream[n] && rest[1..] == stream[n + 1..];
    if stream[n].ending.More? {
      Associative(seen, stream[n].data, Content(stream[n + 1..]));
    }
  }

  lemma FoundEarly(stream: seq<Read>, n: nat, seen: Text, needle: Text)
    requires n < |stream| && Occurs(Lower(seen), needle)
    requires if stream[n].ending.More? then ReadSoFar(stream, n + 1, seen) else Content(stream) == seen
    ensures Occurs(Lower(Content(stream)), needle)
  {
    if stream[n].ending.More? {
      LowerConcat(seen, Content(stream[n + 1..]));
      OccursLater(Lower(seen), Lower(Content(stream[n + 1..])), needle);
    }
  }

  /** Searching the kept tail and the new bytes is searching everything seen so far. */
  lemma ChunkIs(seen: Text, data: Text, needle: Text)
    requires needle != [] && !Occurs(Lower(seen), needle)
    ensures var chunk := Lower(Suffix(Lower(seen), |needle| - 1) + data);
      && (Occurs(chunk, needle) <==> Occurs(Lower(seen + data), needle))
      && Suffix(chunk, |needle| - 1) == Suffix(Lower(seen + data), |needle| - 1)
  {
    var tail := Suffix(Lower(seen), |needle| - 1);
    LowerConcat(tail, data);
    LowerSuffix(seen, |needle| - 1);
    LowerConcat(seen, data);
    TailIsEnough(Lower(seen), Lower(data), needle);
    SuffixOfSuffix(Lower(seen), Lower(data), |needle| - 1);
  }
}
