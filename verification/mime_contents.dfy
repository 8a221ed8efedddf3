/** What a MIME walk extracts from any message, damaged or too large ones included: a walk is the
    steps of the part tree in document order (`MimeWalk.Walker.Walk`), and here is what those
    steps leave behind. */
module MimeContents {
  import opened MimeWalk
  import opened Utf8Text

  // ---- Attachments -----------------------------------------------------------------------

  predicate IsFile(step: Step, limits: Limits) {
    step.Visit? && IsAttachment(step.part, CutName(step.part, limits))
  }

  /** Every attachment of the message as it would be reported, in document order. */
  function FilesIn(steps: seq<Step>, limits: Limits): seq<Attachment> {
    if steps == [] then []
    else (if IsFile(steps[0], limits) then [ReportOf(steps[0].part, limits)] else []) + FilesIn(steps[1..], limits)
  }

  function First(files: seq<Attachment>, n: nat): seq<Attachment> {
    files[..if |files| <= n then |files| else n]
  }

  lemma FirstOf(n: nat, mine: seq<Attachment>, rest: seq<Attachment>)
    requires |mine| <= 1
    ensures First(mine + rest, n) == First(mine, n) + First(rest, n - |First(mine, n)|)
  {
    if mine == [] { assert mine + rest == rest; }
  }

  lemma Appended(a: seq<Attachment>, b: seq<Attachment>, c: seq<Attachment>)
    ensures (a + b) + c == a + (b + c)
  {
  }

  lemma StepFile(s: Progress, step: Step, limits: Limits)
    requires Advance(s, step, limits).Going?
    ensures var next, mine := Advance(s, step, limits).progress, if IsFile(step, limits) then [ReportOf(step.part, limits)] else [];
      next.files == s.files + First(mine, s.filesLeft) && next.filesLeft == s.filesLeft - |First(mine, s.filesLeft)|
  {
  }

  /** A walk that comes to its end lists the first attachments there is room for, whatever
      happened to the bodies, the names and the types. */
  lemma {:induction false} FirstFilesAreListed(s: Progress, steps: seq<Step>, limits: Limits)
    requires RunSteps(s, steps, limits).Going?
    ensures var t := RunSteps(s, steps, limits).progress;
      t.files == s.files + First(FilesIn(steps, limits), s.filesLeft) && |t.files| + t.filesLeft == |s.files| + s.filesLeft
    decreases |steps|
  {
    if steps == [] {
    } else {
      var next := Advance(s, steps[0], limits).progress;
      StepFile(s, steps[0], limits);
      FirstFilesAreListed(next, steps[1..], limits);
      var mine := if IsFile(steps[0], limits) then [ReportOf(steps[0].part, limits)] else [];
      var rest := FilesIn(steps[1..], limits);
      FirstOf(s.filesLeft, mine, rest);
      Appended(s.files, First(mine, s.filesLeft), First(rest, next.filesLeft));
    }
  }

  // ---- Bodies ----------------------------------------------------------------------------

  /** A part that goes into one of the bodies. */
  predicate IsBody(step: Step, limits: Limits) {
    step.Visit? && !IsFile(step, limits) && (MediaOf(step.part).PlainText? || MediaOf(step.part).Html?)
  }

  function BodyParts(steps: seq<Step>, limits: Limits): seq<Part> {
    if steps == [] then []
    else (if IsBody(steps[0], limits) then [steps[0].part] else []) + BodyParts(steps[1..], limits)
  }

  /** Both bodies, and the budget they share. */
  datatype Texts = Texts(text: Bytes, html: Bytes, left: nat)

  function TextsOf(s: Progress): Texts {
    Texts(s.text, s.html, s.bodyLeft)
  }

  function TargetOf(b: Texts, p: Part): Bytes {
    if MediaOf(p).Html? then b.html else b.text
  }

  /** What the budget leaves for a part. */
  function Share(b: Texts, p: Part): Bytes {
    Taken(p.decoded, Available(TargetOf(b, p), b.left))
  }

  function Pour(b: Texts, p: Part): Texts {
    var body := Added(TargetOf(b, p), Share(b, p));
    var left := b.left - (|body| - |TargetOf(b, p)|);
    if MediaOf(p).Html? then b.(html := body, left := left) else b.(text := body, left := left)
  }

  function PourAll(b: Texts, parts: seq<Part>): Texts
    decreases |parts|
  {
    if parts == [] then b else PourAll(Pour(b, parts[0]), parts[1..])
  }

  /** The nonempty shares of the parts of one kind. */
  function Shares(b: Texts, parts: seq<Part>, html: bool): seq<Bytes>
    decreases |parts|
  {
    if parts == [] then []
    else
      (if MediaOf(parts[0]).Html? == html && Share(b, parts[0]) != [] then [Share(b, parts[0])] else [])
      + Shares(Pour(b, parts[0]), parts[1..], html)
  }

  /** Some part does not get all of its content into its body. */
  predicate Short(b: Texts, parts: seq<Part>)
    decreases |parts|
  {
    parts != [] && (Share(b, parts[0]) != parts[0].decoded || Short(Pour(b, parts[0]), parts[1..]))
  }

  lemma StepText(s: Progress, step: Step, limits: Limits)
    requires Advance(s, step, limits).Going?
    ensures var next, b := Advance(s, step, limits).progress, TextsOf(s);
      if IsBody(step, limits) then TextsOf(next) == Pour(b, step.part) && (next.cut <==> s.cut || Share(b, step.part) != step.part.decoded)
      else TextsOf(next) == b && next.cut == s.cut
  {
  }

  /** The bodies come from the text parts alone, in document order; something is missing from
      them exactly when a part got less than its content. */
  lemma {:induction false} BodiesArePoured(s: Progress, steps: seq<Step>, limits: Limits)
    requires RunSteps(s, steps, limits).Going?
    ensures var t, parts := RunSteps(s, steps, limits).progress, BodyParts(steps, limits);
      TextsOf(t) == PourAll(TextsOf(s), parts) && (t.cut <==> s.cut || Short(TextsOf(s), parts))
    decreases |steps|
  {
    if steps == [] {
    } else {
      var parts := BodyParts(steps, limits);
      StepText(s, steps[0], limits);
      BodiesArePoured(Advance(s, steps[0], limits).progress, steps[1..], limits);
      if IsBody(steps[0], limits) {
        assert parts[0] == steps[0].part && parts[1..] == BodyParts(steps[1..], limits);
      } else {
        assert parts == BodyParts(steps[1..], limits);
      }
    }
  }

  /** Each body is what it was, followed by the shares of its own parts on lines of their own. */
  lemma {:induction false} BodiesAreJoined(b: Texts, parts: seq<Part>)
    ensures PourAll(b, parts).text == Joined(b.text, Shares(b, parts, false))
    ensures PourAll(b, parts).html == Joined(b.html, Shares(b, parts, true))
    ensures var r := PourAll(b, parts); |r.text| + |r.html| + r.left == |b.text| + |b.html| + b.left
    decreases |parts|
  {
    if parts == [] {
    } else {
      var p, next := parts[0], Pour(b, parts[0]);
      BodiesAreJoined(next, parts[1..]);
      var mine := if Share(b, p) == [] then [] else [Share(b, p)];
      JoinedOne(TargetOf(b, p), Share(b, p));
      assert Added(TargetOf(b, p), Share(b, p)) == Joined(TargetOf(b, p), mine);
      var rest := Shares(next, parts[1..], MediaOf(p).Html?);
      JoinedConcat(TargetOf(b, p), mine, rest);
      assert Shares(b, parts, MediaOf(p).Html?) == mine + rest;
      assert Shares(b, parts, !MediaOf(p).Html?) == Shares(next, parts[1..], !MediaOf(p).Html?);
    }
  }

  // ---- Flags -----------------------------------------------------------------------------

  /** A damaged header, or a listed attachment whose type was replaced. */
  predicate Damaged(steps: seq<Step>, filesLeft: nat, limits: Limits) {
    steps != [] &&
    (|| (steps[0].Visit? && BadHeader(steps[0].part, limits))
     || (IsFile(steps[0], limits) && filesLeft > 0 && !CleanType(steps[0].part))
     || Damaged(steps[1..], if IsFile(steps[0], limits) && filesLeft > 0 then filesLeft - 1 else filesLeft, limits))
  }

  lemma StepFlag(s: Progress, step: Step, limits: Limits)
    requires Advance(s, step, limits).Going?
    ensures var next, file := Advance(s, step, limits).progress, IsFile(step, limits);
      && next.filesLeft == (if file && s.filesLeft > 0 then s.filesLeft - 1 else s.filesLeft)
      && (next.flagged <==>
        || s.flagged || (step.Visit? && BadHeader(step.part, limits)) || (file && (s.filesLeft == 0 || !CleanType(step.part))))
  {
  }

  /** Besides, the message is flagged exactly when a header was damaged, a type replaced or an
      attachment left out. */
  lemma {:induction false} FlaggedIs(s: Progress, steps: seq<Step>, limits: Limits)
    requires RunSteps(s, steps, limits).Going?
    ensures RunSteps(s, steps, limits).progress.flagged <==>
      s.flagged || Damaged(steps, s.filesLeft, limits) || |FilesIn(steps, limits)| > s.filesLeft
    decreases |steps|
  {
    if steps != [] {
      StepFlag(s, steps[0], limits);
      FlaggedIs(Advance(s, steps[0], limits).progress, steps[1..], limits);
    }
  }

  // ---- How a walk ends -------------------------------------------------------------------

  /** Nothing about the part fails to be read. */
  predicate Sound(step: Step) {
    if step.Close? then !step.part.nextPartFails
    else !step.part.readFails && (MediaOf(step.part).Multipart? ==> step.part.boundary)
  }

  function Visits(steps: seq<Step>): nat {
    if steps == [] then 0 else (if steps[0].Visit? then 1 else 0) + Visits(steps[1..])
  }

  predicate TooDeep(steps: seq<Step>) {
    exists i :: 0 <= i < |steps| && steps[i].Visit? && steps[i].depth > MAX_MIME_DEPTH
  }

  /** A message that can be read is walked to its end exactly when it has no more parts than
      allowed and none is too deep; otherwise the budget is the reason. */
  lemma {:induction false} SoundWalkEnds(s: Progress, steps: seq<Step>, limits: Limits)
    requires forall i :: 0 <= i < |steps| ==> Sound(steps[i])
    ensures var r := RunSteps(s, steps, limits);
      && (r.Going? <==> Visits(steps) <= s.partsLeft && !TooDeep(steps))
      && (r.Stuck? ==> r.error.BudgetExhausted?)
    decreases |steps|
  {
    if steps != [] {
      var first, rest := steps[0], steps[1..];
      assert TooDeep(steps) <==> (first.Visit? && first.depth > MAX_MIME_DEPTH) || TooDeep(rest) by {
        if TooDeep(rest) {
          var i :| 0 <= i < |rest| && rest[i].Visit? && rest[i].depth > MAX_MIME_DEPTH;
          assert steps[i + 1] == rest[i];
        }
        if TooDeep(steps) {
          var i :| 0 <= i < |steps| && steps[i].Visit? && steps[i].depth > MAX_MIME_DEPTH;
          assert i > 0 ==> rest[i - 1] == steps[i];
        }
      }
      if Advance(s, first, limits).Going? {
        SoundWalkEnds(Advance(s, first, limits).progress, rest, limits);
      }
    }
  }

  /** Where a walk fails it keeps what it has extracted so far. */
  lemma {:induction false} StuckKeepsProgress(s: Progress, steps: seq<Step>, limits: Limits) returns (k: nat)
    requires RunSteps(s, steps, limits).Stuck?
    ensures k < |steps| && RunSteps(s, steps[..k], limits).Going?
    ensures var t, u := RunSteps(s, steps, limits).progress, RunSteps(s, steps[..k], limits).progress;
      t.files == u.files && TextsOf(t) == TextsOf(u) && t.cut == u.cut
    ensures Advance(RunSteps(s, steps[..k], limits).progress, steps[k], limits) == RunSteps(s, steps, limits)
    decreases |steps|
  {
    match Advance(s, steps[0], limits)
    case Stuck(_, _) =>
      k := 0;
    case Going(t) =>
      k := StuckKeepsProgress(t, steps[1..], limits);
      assert steps[..k + 1][0] == steps[0] && steps[..k + 1][1..] == steps[1..][..k];
      k := k + 1;
  }
}
