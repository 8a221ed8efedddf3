/** The MIME walk: a part tree is flattened into two bodies and a list of attachments within
    fixed budgets. */
module MimeWalk {
  import opened Results
  import opened Utf8Text

  type Bytes = seq<Byte>

  const MAX_MIME_PARTS := 100
  const MAX_MIME_DEPTH := 20
  const MAX_CONTENT_TYPE_BYTES := 256
  const NEWLINE: Bytes := [10]
  const OCTET_STREAM: Bytes := [
    97, 112, 112, 108, 105, 99, 97, 116, 105, 111, 110, 47, 111, 99, 116, 101, 116, 45, 115, 116, 114, 101, 97, 109]

  datatype Media = Multipart | PlainText | Html | Other

  /** One entity of the message, as far as its headers and decoded content matter. Reading the
      content, or the next part, may fail after what could be delivered. */
  datatype Part = Part(
    typeTooLong: bool, typeInvalid: bool, media: Media, mediaName: Bytes, boundary: bool,
    dispositionTooLong: bool, dispositionInvalid: bool, attachment: bool, filename: Bytes,
    decoded: Bytes, readFails: bool, children: seq<Part>, nextPartFails: bool)

  datatype WalkError = BudgetExhausted | NoBoundary | ReadFailed

  datatype Attachment = Attachment(filename: Bytes, contentType: Bytes, size: nat)

  /** A content type that could not be read whole is treated as opaque data. */
  function MediaOf(p: Part): Media {
    if p.typeTooLong || p.typeInvalid then Other else p.media
  }

  function NameOf(p: Part): Bytes {
    if p.typeTooLong || p.typeInvalid then OCTET_STREAM else p.mediaName
  }

  function IsAttachment(p: Part, filename: Bytes): bool {
    p.dispositionTooLong || p.dispositionInvalid || p.attachment || filename != []
  }

  // ---- What a message that fits contains -------------------------------------------------

  function Piece(p: Part): seq<Bytes> {
    if p.decoded == [] then [] else [p.decoded]
  }

  /** The nonempty bodies of one kind in document order. */
  function Bodies(p: Part, kind: Media): seq<Bytes> {
    if IsAttachment(p, p.filename) then []
    else if MediaOf(p).Multipart? then BodiesOf(p.children, kind)
    else if MediaOf(p) == kind then Piece(p)
    else []
  }

  function BodiesOf(parts: seq<Part>, kind: Media): seq<Bytes> {
    if parts == [] then [] else BodiesOf(parts[..|parts| - 1], kind) + Bodies(parts[|parts| - 1], kind)
  }

  /** An attachment as it is reported: with its size up to the limit. */
  function FileOf(p: Part, partLimit: int): Attachment {
    Attachment(p.filename, NameOf(p), if |p.decoded| <= Max0(partLimit) then |p.decoded| else Max0(partLimit))
  }

  /** The attachments in document order. */
  function Files(p: Part, partLimit: int): seq<Attachment> {
    if IsAttachment(p, p.filename) then [FileOf(p, partLimit)]
    else if MediaOf(p).Multipart? then FilesOf(p.children, partLimit)
    else []
  }

  function FilesOf(parts: seq<Part>, partLimit: int): seq<Attachment> {
    if parts == [] then [] else FilesOf(parts[..|parts| - 1], partLimit) + Files(parts[|parts| - 1], partLimit)
  }

  /** Bodies are joined by newlines. */
  function Joined(body: Bytes, pieces: seq<Bytes>): Bytes {
    if pieces == [] then body
    else
      var front := Joined(body, pieces[..|pieces| - 1]);
      if front == [] then pieces[|pieces| - 1] else front + NEWLINE + pieces[|pieces| - 1]
  }

  lemma {:induction false} JoinedConcat(body: Bytes, a: seq<Bytes>, b: seq<Bytes>)
    ensures Joined(body, a + b) == Joined(Joined(body, a), b)
  {
    if b == [] {
      assert a + b == a;
    } else {
      JoinedConcat(body, a, b[..|b| - 1]);
      assert (a + b)[..|a + b| - 1] == a + b[..|b| - 1];
    }
  }

  // ---- Reading ---------------------------------------------------------------------------

  /** What `readBodyPart` keeps of a content. */
  function Taken(decoded: Bytes, limit: int): (r: Bytes)
    ensures |r| <= Max0(limit)
  {
    Truncated(if |decoded| <= Max0(limit) then decoded else decoded[..Max0(limit)], Max0(limit))
  }

  /** A well-formed content that fits is kept; of a longer one the longest well-formed prefix,
      with a replacement character if the limit falls before the last byte of a four-byte one. */
  lemma TakenIs(decoded: Bytes, limit: int)
    ensures |Taken(decoded, limit)| <= Max0(limit) && Utf8Text.Valid(Taken(decoded, limit))
    ensures Taken(decoded, limit) == decoded <==> Utf8Text.Valid(decoded) && |decoded| <= Max0(limit)
    ensures Utf8Text.Valid(decoded) && |decoded| > Max0(limit) ==>
      var k := CutAt(decoded, Max0(limit));
      Taken(decoded, limit) == decoded[..k] + (if k + 3 == Max0(limit) then REPLACEMENT else []) && Max0(limit) <= k + 3
  {
    TruncatedIsValid(decoded, Max0(limit));
    if |decoded| > Max0(limit) {
      TruncatedIsValid(decoded[..Max0(limit)], Max0(limit));
      if Utf8Text.Valid(decoded) {
        CutThenRepaired(decoded, Max0(limit));
        CutIsTight(decoded, Max0(limit));
      }
    }
  }

  /** Such an input: U+1F600 cut after its third byte. */
  lemma CutCharacterIsReplaced()
    ensures Utf8Text.Valid([0xF0, 0x9F, 0x98, 0x80])
    ensures Taken([0xF0, 0x9F, 0x98, 0x80], 3) == REPLACEMENT
  {
    var face: Bytes := [0xF0, 0x9F, 0x98, 0x80];
    assert RuneLength(face) == 4 && face[4..] == [];
    assert face[..3][0] == 0xF0 && RuneLength(face[..3]) == 0;
    assert face[..2][0] == 0xF0 && RuneLength(face[..2]) == 0;
    assert face[..1][0] == 0xF0 && RuneLength(face[..1]) == 0;
    assert CutAt(face, 3) == 0;
    TakenIs(face, 3);
  }

  /** `readBodyPart`: the flag says that something is missing or was replaced. */
  method ReadBodyPart(decoded: Bytes, readFails: bool, limit: int) returns (r: Result<(Bytes, bool), WalkError>)
    ensures r.Failure? <==> readFails && |decoded| <= Max0(limit)
    ensures r.Failure? ==> r.error.ReadFailed?
    ensures r.Success? ==> r.value.0 == Taken(decoded, limit) && (r.value.1 <==> r.value.0 != decoded)
    ensures r.Success? ==> |r.value.0| <= Max0(limit) && Utf8Text.Valid(r.value.0)
  {
    TakenIs(decoded, limit);
    var bound := if limit < 0 then 0 else limit;
    var content := if |decoded| <= bound + 1 then decoded else decoded[..bound + 1];
    if readFails && |decoded| <= bound {
      return Failure(ReadFailed);
    }
    var truncated := false;
    if |content| > bound {
      assert content[..bound] == decoded[..bound];
      content := content[..bound];
      truncated := true;
    }
    var result, adjusted := TruncateUTF8(content, bound);
    return Success((result, truncated || adjusted));
  }

  /** `countLimited`. */
  method CountLimited(decoded: Bytes, readFails: bool, limit: int) returns (r: Result<nat, WalkError>)
    ensures r.Failure? <==> readFails && |decoded| <= Max0(limit)
    ensures r.Failure? ==> r.error.ReadFailed?
    ensures r.Success? ==> r.value == if |decoded| <= Max0(limit) then |decoded| else Max0(limit)
  {
    var bound := if limit < 0 then 0 else limit;
    if readFails && |decoded| <= bound {
      return Failure(ReadFailed);
    }
    return Success(if |decoded| > bound then bound else |decoded|);
  }

  /** The name of the type, unless it is too long or malformed. */
  method ReportedType(p: Part) returns (contentType: Bytes, cut: bool)
    ensures |contentType| <= MAX_CONTENT_TYPE_BYTES
    ensures (cut <==> !CleanType(p)) && contentType == if cut then OCTET_STREAM else NameOf(p)
  {
    contentType, cut := TruncateUTF8(NameOf(p), MAX_CONTENT_TYPE_BYTES);
    TruncatedIsValid(NameOf(p), MAX_CONTENT_TYPE_BYTES);
    if cut {
      contentType := OCTET_STREAM;
    }
  }

  /** An attachment entry, and whether its type had to be replaced. */
  method Describe(p: Part, filename: Bytes, limits: Limits) returns (r: Result<Attachment, WalkError>, cut: bool)
    requires filename == CutName(p, limits)
    ensures r.Failure? <==> !Countable(p, limits)
    ensures r.Failure? ==> r.error.ReadFailed?
    ensures r.Success? ==> r.value == ReportOf(p, limits) && Fits(r.value, limits) && (cut <==> !CleanType(p))
  {
    var size := CountLimited(p.decoded, p.readFails, limits.maxPartBytes);
    if size.Failure? {
      return Failure(size.error), false;
    }
    var contentType;
    contentType, cut := ReportedType(p);
    r := Success(Attachment(filename, contentType, size.value));
  }

  predicate CleanType(p: Part) {
    Utf8Text.Valid(NameOf(p)) && |NameOf(p)| <= MAX_CONTENT_TYPE_BYTES
  }

  predicate Fits(a: Attachment, limits: Limits) {
    |a.filename| <= limits.maxFilenameBytes && |a.contentType| <= MAX_CONTENT_TYPE_BYTES
  }

  datatype Limits = Limits(maxBodyBytes: nat, maxAttachments: nat, maxFilenameBytes: nat, maxPartBytes: int)

  /** `mimeBudget` and the parts of `parsedMessage` the walk fills in. */
  class Walker {
    const limits: Limits
    var remaining: nat
    var truncated: bool
    var partsRemaining: nat
    var attachmentsRemaining: nat
    var textBody: Bytes
    var htmlBody: Bytes
    var attachments: seq<Attachment>
    var bodyTruncated: bool
    /** How many parts were entered, and the deepest. */
    ghost var entered: nat
    ghost var deepest: nat

    ghost predicate Valid()
      reads this
    {
      && |textBody| + |htmlBody| + remaining == limits.maxBodyBytes
      && |attachments| + attachmentsRemaining == limits.maxAttachments
      && entered + partsRemaining == MAX_MIME_PARTS && deepest <= MAX_MIME_DEPTH
      && WellFormed()
    }

    ghost predicate WellFormed()
      reads this`textBody, this`htmlBody, this`attachments
    {
      && Utf8Text.Valid(textBody) && Utf8Text.Valid(htmlBody)
      && forall i :: 0 <= i < |attachments| ==> Fits(attachments[i], limits)
    }

    /** Something of the message is missing from the result. */
    ghost predicate Flagged()
      reads this
    {
      truncated || bodyTruncated
    }

    constructor (limits: Limits)
      ensures Valid() && !Flagged() && this.limits == limits && textBody == [] && htmlBody == [] && attachments == []
    {
      this.limits := limits;
      remaining, truncated, partsRemaining, attachmentsRemaining := limits.maxBodyBytes, false, MAX_MIME_PARTS, limits.maxAttachments;
      textBody, htmlBody, attachments, bodyTruncated, entered, deepest := [], [], [], false, 0, 0;
    }

    /** How far the walk has come. */
    ghost function Now(): Progress
      reads this
    {
      Progress(textBody, htmlBody, attachments, remaining, attachmentsRemaining, partsRemaining, truncated, bodyTruncated)
    }

    ghost function Ended(error: Option<WalkError>): Outcome
      reads this
    {
      if error.None? then Going(Now()) else Stuck(Now(), error.value)
    }

    /** The attachment branch of `walkMIME`. */
    method AddAttachment(p: Part, filename: Bytes) returns (error: Option<WalkError>)
      requires Valid() && |filename| <= limits.maxFilenameBytes && filename == CutName(p, limits)
      modifies this`attachments, this`attachmentsRemaining, this`bodyTruncated
      ensures Valid()
      ensures Ended(error) == Attached(old(Now()), p, limits)
    {
      if attachmentsRemaining == 0 {
        bodyTruncated := true;
        return None;
      }
      var described, cut := Describe(p, filename, limits);
      if described.Failure? {
        return Some(described.error);
      }
      if cut {
        bodyTruncated := true;
      }
      attachments := attachments + [described.value];
      attachmentsRemaining := attachmentsRemaining - 1;
      return None;
    }

    /** The text branch: a newline and as much of the body as the budget still allows. */
    method AddBody(p: Part) returns (error: Option<WalkError>)
      requires Valid() && (MediaOf(p).PlainText? || MediaOf(p).Html?)
      modifies this`remaining, this`truncated, this`textBody, this`htmlBody
      ensures Valid()
      ensures Ended(error) == Poured(old(Now()), p)
    {
      var target := if MediaOf(p).Html? then htmlBody else textBody;
      var extended := Extend(target, p, remaining);
      if extended.Failure? {
        return Some(extended.error);
      }
      var Filled(body, left, missing) := extended.value;
      truncated := truncated || missing;
      remaining := left;
      if MediaOf(p).Html? {
        htmlBody := body;
      } else {
        textBody := body;
      }
      return None;
    }

    ghost function Result(): Contents
      reads this
    {
      Contents(textBody, htmlBody, attachments)
    }

    /** `walkMIME`. Nothing of the part is missing exactly when it is clean and fits; the result
        then is the bodies and attachments of the tree in document order. */
    method Walk(p: Part, depth: nat) returns (error: Option<WalkError>)
      requires Valid()
      modifies this
      ensures Valid() && (old(truncated) ==> truncated) && (old(bodyTruncated) ==> bodyTruncated)
      ensures error == Some(BudgetExhausted) ==> bodyTruncated
      ensures error.None? && !Flagged() <==> !old(Flagged()) && Complete(p, limits, depth, old(Result()), old(entered))
      ensures error.None? && !Flagged() ==> Result() == Including(old(Result()), p, limits) && entered == old(entered) + Parts(p)
      ensures old(textBody) <= textBody && old(htmlBody) <= htmlBody && old(attachments) <= attachments
      ensures old(entered) <= entered && (depth > MAX_MIME_DEPTH ==> error == Some(BudgetExhausted) && entered == old(entered))
      ensures Ended(error) == RunSteps(old(Now()), Steps(p, depth, limits), limits)
      decreases p, 2
    {
      if depth > MAX_MIME_DEPTH || partsRemaining == 0 {
        bodyTruncated := true;
        return Some(BudgetExhausted);
      }
      StepsBegin(Now(), p, depth, limits);
      HeaderIs(p, limits);
      var filename := Enter(p, depth);
      error := WalkContent(p, depth, filename);
    }

    /** Counts the part and reads its headers. */
    method Enter(p: Part, depth: nat) returns (filename: Bytes)
      requires Valid() && depth <= MAX_MIME_DEPTH && partsRemaining > 0
      modifies this`partsRemaining, this`bodyTruncated, this`entered, this`deepest
      ensures Valid() && entered == old(entered) + 1 && |filename| <= limits.maxFilenameBytes
      ensures filename == CutName(p, limits) && Now() == Entered(old(Now()), p, limits)
    {
      partsRemaining := partsRemaining - 1;
      entered, deepest := entered + 1, if depth > deepest then depth else deepest;
      if p.typeTooLong || p.dispositionTooLong || p.typeInvalid || p.dispositionInvalid {
        bodyTruncated := true;
      }
      var cut;
      filename, cut := TruncateUTF8(p.filename, limits.maxFilenameBytes);
      if cut {
        bodyTruncated := true;
      }
    }

    method WalkContent(p: Part, depth: nat, filename: Bytes) returns (error: Option<WalkError>)
      requires Valid() && depth <= MAX_MIME_DEPTH && |filename| <= limits.maxFilenameBytes
      requires !bodyTruncated ==> filename == p.filename && CleanHeader(p, limits)
      requires entered > 0 && filename == CutName(p, limits)
      modifies this
      ensures Valid() && (old(truncated) ==> truncated) && (old(bodyTruncated) ==> bodyTruncated)
      ensures error == Some(BudgetExhausted) ==> bodyTruncated
      ensures error.None? && !Flagged() <==> !old(Flagged()) && Complete(p, limits, depth, old(Result()), old(entered) - 1)
      ensures error.None? && !Flagged() ==> Result() == Including(old(Result()), p, limits) && entered == old(entered) - 1 + Parts(p)
      ensures old(textBody) <= textBody && old(htmlBody) <= htmlBody && old(attachments) <= attachments
      ensures old(entered) <= entered
      ensures Ended(error) == Inside(old(Now()), p, depth, limits)
      decreases p, 1
    {
      IncludingIs(Result(), p, limits);
      CompleteIs(p, limits, depth, Result(), entered - 1);
      if IsAttachment(p, filename) {
        AttachedIs(Now(), p, limits);
        error := AddAttachment(p, filename);
      } else if MediaOf(p).Multipart? {
        if !p.boundary {
          return Some(NoBoundary);
        }
        error := WalkChildren(p, depth);
      } else if MediaOf(p).Other? {
        var counted := CountLimited(p.decoded, p.readFails, limits.maxPartBytes);
        error := if counted.Failure? then Some(counted.error) else None;
      } else {
        PouredIs(Now(), p);
        error := AddBody(p);
      }
    }

    /** The parts so far are whole exactly when they are clean and fit. */
    ghost predicate Whole(parts: seq<Part>, depth: nat, c: Contents, before: nat, clean: bool)
      reads this
    {
      && (!Flagged() <==> clean && CompleteAll(parts, limits, depth, c, before))
      && (!Flagged() ==> Result() == IncludingAll(c, parts, limits) && entered == before + PartsOf(parts))
    }

    method WalkChild(p: Part, i: nat, depth: nat, ghost c: Contents, ghost before: nat, ghost clean: bool)
      returns (error: Option<WalkError>)
      requires Valid() && i < |p.children| && Whole(p.children[..i], depth + 1, c, before, clean)
      modifies this
      ensures Valid() && (old(truncated) ==> truncated) && (old(bodyTruncated) ==> bodyTruncated)
      ensures error == Some(BudgetExhausted) ==> bodyTruncated
      ensures error.None? ==> Whole(p.children[..i + 1], depth + 1, c, before, clean)
      ensures error.Some? ==> !clean || !CompleteAll(p.children, limits, depth + 1, c, before)
      ensures old(textBody) <= textBody && old(htmlBody) <= htmlBody && old(attachments) <= attachments
      ensures old(entered) <= entered
      ensures Ended(error) == RunSteps(old(Now()), Steps(p.children[i], depth + 1, limits), limits)
      decreases p.children[i], 3
    {
      OneMoreChild(c, p.children, i, limits);
      CompleteStep(p.children, i, limits, depth + 1, c, before);
      CompletePrefix(p.children, i + 1, limits, depth + 1, c, before);
      error := Walk(p.children[i], depth + 1);
    }

    /** The loop over the parts of a multipart body. */
    method WalkChildren(p: Part, depth: nat) returns (error: Option<WalkError>)
      requires Valid() && depth <= MAX_MIME_DEPTH
      modifies this
      ensures Valid() && (old(truncated) ==> truncated) && (old(bodyTruncated) ==> bodyTruncated)
      ensures error == Some(BudgetExhausted) ==> bodyTruncated
      ensures error.None? && !Flagged() <==>
        !old(Flagged()) && !p.nextPartFails && CompleteAll(p.children, limits, depth + 1, old(Result()), old(entered))
      ensures error.None? && !Flagged() ==>
        Result() == IncludingAll(old(Result()), p.children, limits) && entered == old(entered) + PartsOf(p.children)
      ensures old(textBody) <= textBody && old(htmlBody) <= htmlBody && old(attachments) <= attachments
      ensures old(entered) <= entered
      ensures Ended(error) == RunSteps(old(Now()), StepsOf(p.children, depth + 1, limits) + [Close(p)], limits)
      decreases p, 0
    {
      ghost var c, before, clean := Result(), entered, !Flagged();
      for i := 0 to |p.children|
        invariant Valid() && (old(truncated) ==> truncated) && (old(bodyTruncated) ==> bodyTruncated)
        invariant Whole(p.children[..i], depth + 1, c, before, clean)
        invariant old(textBody) <= textBody && old(htmlBody) <= htmlBody && old(attachments) <= attachments
        invariant old(entered) <= entered
        invariant RunSteps(old(Now()), StepsOf(p.children[..i], depth + 1, limits), limits) == Going(Now())
      {
        ChildSteps(old(Now()), Now(), p, i, depth + 1, limits);
        error := WalkChild(p, i, depth, c, before, clean);
        if error.Some? {
          return;
        }
      }
      assert p.children[..|p.children|] == p.children;
      RunConcat(old(Now()), StepsOf(p.children, depth + 1, limits), [Close(p)], limits);
      return if p.nextPartFails then Some(ReadFailed) else None;
    }
  }

  /** What has been extracted: both bodies and the attachments. */
  datatype Contents = Contents(text: Bytes, html: Bytes, files: seq<Attachment>)

  function Including(c: Contents, p: Part, limits: Limits): Contents {
    Contents(Joined(c.text, Bodies(p, PlainText)), Joined(c.html, Bodies(p, Html)), c.files + Files(p, limits.maxPartBytes))
  }

  function IncludingAll(c: Contents, parts: seq<Part>, limits: Limits): Contents {
    Contents(Joined(c.text, BodiesOf(parts, PlainText)), Joined(c.html, BodiesOf(parts, Html)), c.files + FilesOf(parts, limits.maxPartBytes))
  }

  // ---- The parts in document order -------------------------------------------------------

  /** How far a walk has come: what it has extracted, what is left of the budgets, and whether
      anything is missing. */
  datatype Progress = Progress(
    text: Bytes, html: Bytes, files: seq<Attachment>, bodyLeft: nat, filesLeft: nat, partsLeft: nat, cut: bool, flagged: bool)

  datatype Outcome = Going(progress: Progress) | Stuck(progress: Progress, error: WalkError)

  /** A multipart body is opened, its parts follow, and it is closed. */
  datatype Step = Visit(part: Part, depth: nat) | Close(part: Part)

  function CutName(p: Part, limits: Limits): Bytes {
    Truncated(p.filename, limits.maxFilenameBytes)
  }

  predicate Opens(p: Part, limits: Limits) {
    !IsAttachment(p, CutName(p, limits)) && MediaOf(p).Multipart? && p.boundary
  }

  function Steps(p: Part, depth: nat, limits: Limits): seq<Step>
    decreases p, 1
  {
    [Visit(p, depth)] + if Opens(p, limits) then StepsOf(p.children, depth + 1, limits) + [Close(p)] else []
  }

  function StepsOf(parts: seq<Part>, depth: nat, limits: Limits): seq<Step>
    decreases parts, 0
  {
    if parts == [] then []
    else StepsOf(parts[..|parts| - 1], depth, limits) + Steps(parts[|parts| - 1], depth, limits)
  }

  /** What is wrong with the headers of a part. */
  predicate BadHeader(p: Part, limits: Limits) {
    p.typeTooLong || p.typeInvalid || p.dispositionTooLong || p.dispositionInvalid || CutName(p, limits) != p.filename
  }

  lemma HeaderIs(p: Part, limits: Limits)
    ensures BadHeader(p, limits) <==> !CleanHeader(p, limits)
  {
    TruncatedIsValid(p.filename, limits.maxFilenameBytes);
  }

  function Entered(s: Progress, p: Part, limits: Limits): Progress
    requires s.partsLeft > 0
  {
    s.(partsLeft := s.partsLeft - 1, flagged := s.flagged || BadHeader(p, limits))
  }

  /** An attachment as it is reported, its name cut and its type replaced if they are too long. */
  function ReportOf(p: Part, limits: Limits): Attachment {
    FileOf(p, limits.maxPartBytes).(
      filename := CutName(p, limits), contentType := if CleanType(p) then NameOf(p) else OCTET_STREAM)
  }

  function Attached(s: Progress, p: Part, limits: Limits): Outcome {
    if s.filesLeft == 0 then Going(s.(flagged := true))
    else if !Countable(p, limits) then Stuck(s, ReadFailed)
    else Going(s.(files := s.files + [ReportOf(p, limits)], filesLeft := s.filesLeft - 1, flagged := s.flagged || !CleanType(p)))
  }

  /** A body with what the budget leaves for a content, what is left then, and whether anything
      of the content is missing. */
  datatype Filled = Filled(body: Bytes, left: nat, missing: bool)

  function Grown(target: Bytes, decoded: Bytes, left: nat): Filled {
    var content := Taken(decoded, Available(target, left));
    Filled(Added(target, content), left - (|Added(target, content)| - |target|), content != decoded)
  }

  /** An unreadable content that would fit is an error. */
  predicate Unreadable(target: Bytes, p: Part, left: nat) {
    p.readFails && |p.decoded| <= Max0(Available(target, left))
  }

  function Poured(s: Progress, p: Part): Outcome {
    var target := if MediaOf(p).Html? then s.html else s.text;
    if Unreadable(target, p, s.bodyLeft) then Stuck(s, ReadFailed)
    else
      var Filled(body, left, missing) := Grown(target, p.decoded, s.bodyLeft);
      var t := s.(bodyLeft := left, cut := s.cut || missing);
      Going(if MediaOf(p).Html? then t.(html := body) else t.(text := body))
  }

  /** A part without parts of its own. */
  function Leaf(s: Progress, p: Part, limits: Limits): Outcome {
    if IsAttachment(p, CutName(p, limits)) then Attached(s, p, limits)
    else if MediaOf(p).Multipart? then Stuck(s, NoBoundary)
    else if MediaOf(p).Other? then if Countable(p, limits) then Going(s) else Stuck(s, ReadFailed)
    else Poured(s, p)
  }

  function Advance(s: Progress, step: Step, limits: Limits): Outcome {
    match step
    case Close(p) => if p.nextPartFails then Stuck(s, ReadFailed) else Going(s)
    case Visit(p, depth) =>
      if depth > MAX_MIME_DEPTH || s.partsLeft == 0 then Stuck(s.(flagged := true), BudgetExhausted)
      else if Opens(p, limits) then Going(Entered(s, p, limits))
      else Leaf(Entered(s, p, limits), p, limits)
  }

  /** The steps one after the other, up to the first that fails. */
  function RunSteps(s: Progress, steps: seq<Step>, limits: Limits): Outcome
    decreases |steps|
  {
    if steps == [] then Going(s)
    else
      match Advance(s, steps[0], limits)
      case Stuck(t, error) => Stuck(t, error)
      case Going(t) => RunSteps(t, steps[1..], limits)
  }

  /** What follows the headers of a part. */
  function Inside(s: Progress, p: Part, depth: nat, limits: Limits): Outcome {
    if Opens(p, limits) then RunSteps(s, StepsOf(p.children, depth + 1, limits) + [Close(p)], limits) else Leaf(s, p, limits)
  }

  lemma StepsBegin(s: Progress, p: Part, depth: nat, limits: Limits)
    requires depth <= MAX_MIME_DEPTH && s.partsLeft > 0
    ensures RunSteps(s, Steps(p, depth, limits), limits) == Inside(Entered(s, p, limits), p, depth, limits)
  {
    var steps := Steps(p, depth, limits);
    var rest := if Opens(p, limits) then StepsOf(p.children, depth + 1, limits) + [Close(p)] else [];
    assert steps[0] == Visit(p, depth) && steps[1..] == rest;
  }

  lemma {:induction false} RunConcat(s: Progress, a: seq<Step>, b: seq<Step>, limits: Limits)
    ensures RunSteps(s, a + b, limits) ==
      match RunSteps(s, a, limits)
      case Going(t) => RunSteps(t, b, limits)
      case Stuck(t, error) => Stuck(t, error)
    decreases |a|
  {
    if a == [] {
      assert a + b == b;
    } else {
      assert (a + b)[0] == a[0] && (a + b)[1..] == a[1..] + b;
      if Advance(s, a[0], limits).Going? {
        RunConcat(Advance(s, a[0], limits).progress, a[1..], b, limits);
      }
    }
  }

  /** No part is looked at after one that fails. */
  lemma {:induction false} StuckStays(s: Progress, parts: seq<Part>, i: nat, depth: nat, limits: Limits)
    requires i <= |parts| && RunSteps(s, StepsOf(parts[..i], depth, limits), limits).Stuck?
    ensures RunSteps(s, StepsOf(parts, depth, limits), limits) == RunSteps(s, StepsOf(parts[..i], depth, limits), limits)
    decreases |parts| - i
  {
    if i == |parts| {
      assert parts[..i] == parts;
    } else {
      assert parts[..i + 1][..i] == parts[..i];
      RunConcat(s, StepsOf(parts[..i], depth, limits), Steps(parts[i], depth, limits), limits);
      StuckStays(s, parts, i + 1, depth, limits);
    }
  }

  /** One more part; after one that fails nothing follows. */
  lemma ChildSteps(start: Progress, now: Progress, p: Part, i: nat, depth: nat, limits: Limits)
    requires i < |p.children| && RunSteps(start, StepsOf(p.children[..i], depth, limits), limits) == Going(now)
    ensures var r := RunSteps(now, Steps(p.children[i], depth, limits), limits);
      && RunSteps(start, StepsOf(p.children[..i + 1], depth, limits), limits) == r
      && (r.Stuck? ==> RunSteps(start, StepsOf(p.children, depth, limits) + [Close(p)], limits) == r)
  {
    assert p.children[..i + 1][..i] == p.children[..i];
    RunConcat(start, StepsOf(p.children[..i], depth, limits), Steps(p.children[i], depth, limits), limits);
    if RunSteps(now, Steps(p.children[i], depth, limits), limits).Stuck? {
      StuckStays(start, p.children, i + 1, depth, limits);
      RunConcat(start, StepsOf(p.children, depth, limits), [Close(p)], limits);
    }
  }

  // ---- Which messages are taken over whole -----------------------------------------------

  function Growth(body: Bytes, pieces: seq<Bytes>): int {
    |Joined(body, pieces)| - |body|
  }

  predicate CleanHeader(p: Part, limits: Limits) {
    && !p.typeTooLong && !p.typeInvalid && !p.dispositionTooLong && !p.dispositionInvalid
    && Utf8Text.Valid(p.filename) && |p.filename| <= limits.maxFilenameBytes
  }

  /** Counting its bytes does not meet a read error. */
  predicate Countable(p: Part, limits: Limits) {
    p.readFails ==> |p.decoded| > Max0(limits.maxPartBytes)
  }

  predicate CleanAttachment(p: Part, limits: Limits) {
    Countable(p, limits) && CleanType(p)
  }

  predicate CleanContent(p: Part, limits: Limits) {
    if IsAttachment(p, p.filename) then CleanAttachment(p, limits)
    else if MediaOf(p).Multipart? then p.boundary && !p.nextPartFails
    else if MediaOf(p).Other? then Countable(p, limits)
    else Utf8Text.Valid(p.decoded) && !p.readFails
  }

  /** Every part is well formed, readable and not too deep. */
  predicate Clean(p: Part, limits: Limits, depth: nat) {
    && depth <= MAX_MIME_DEPTH && CleanHeader(p, limits) && CleanContent(p, limits)
    && (!IsAttachment(p, p.filename) && MediaOf(p).Multipart? ==> CleanAll(p.children, limits, depth + 1))
  }

  predicate CleanAll(parts: seq<Part>, limits: Limits, depth: nat) {
    parts == [] || (CleanAll(parts[..|parts| - 1], limits, depth) && Clean(parts[|parts| - 1], limits, depth))
  }

  /** How many parts the walk enters. */
  function Parts(p: Part): (n: nat)
    ensures n >= 1
  {
    1 + if !IsAttachment(p, p.filename) && MediaOf(p).Multipart? then PartsOf(p.children) else 0
  }

  function PartsOf(parts: seq<Part>): nat {
    if parts == [] then 0 else PartsOf(parts[..|parts| - 1]) + Parts(parts[|parts| - 1])
  }

  /** The contents and the number of parts stay within their budgets. */
  predicate InBudget(c: Contents, entered: nat, limits: Limits) {
    && entered <= MAX_MIME_PARTS && |c.files| <= limits.maxAttachments
    && |c.text| + |c.html| <= limits.maxBodyBytes
  }

  /** The part is clean, and it fits on top of what has been extracted. */
  predicate Complete(p: Part, limits: Limits, depth: nat, c: Contents, entered: nat) {
    Clean(p, limits, depth) && InBudget(Including(c, p, limits), entered + Parts(p), limits)
  }

  predicate CompleteAll(parts: seq<Part>, limits: Limits, depth: nat, c: Contents, entered: nat) {
    CleanAll(parts, limits, depth) && InBudget(IncludingAll(c, parts, limits), entered + PartsOf(parts), limits)
  }

  lemma {:induction false} JoinedGrows(body: Bytes, pieces: seq<Bytes>)
    ensures |body| <= |Joined(body, pieces)|
  {
    if pieces != [] { JoinedGrows(body, pieces[..|pieces| - 1]); }
  }

  lemma CompleteIs(p: Part, limits: Limits, depth: nat, c: Contents, entered: nat)
    requires depth <= MAX_MIME_DEPTH
    ensures Complete(p, limits, depth, c, entered) <==>
      && CleanHeader(p, limits) && InBudget(Including(c, p, limits), entered + Parts(p), limits) && CleanContent(p, limits)
      && (!IsAttachment(p, p.filename) && MediaOf(p).Multipart? ==> CompleteAll(p.children, limits, depth + 1, c, entered + 1))
  {
    IncludingIs(c, p, limits);
  }

  lemma CompleteStep(parts: seq<Part>, i: nat, limits: Limits, depth: nat, c: Contents, entered: nat)
    requires i < |parts|
    ensures CompleteAll(parts[..i + 1], limits, depth, c, entered) <==>
      && CompleteAll(parts[..i], limits, depth, c, entered)
      && Complete(parts[i], limits, depth, IncludingAll(c, parts[..i], limits), entered + PartsOf(parts[..i]))
    ensures PartsOf(parts[..i + 1]) == PartsOf(parts[..i]) + Parts(parts[i])
  {
    assert parts[..i + 1][..i] == parts[..i];
    OneMoreChild(c, parts, i, limits);
    var front := IncludingAll(c, parts[..i], limits);
    JoinedGrows(front.text, Bodies(parts[i], PlainText));
    JoinedGrows(front.html, Bodies(parts[i], Html));
  }

  /** What cannot be taken over does not become complete by more parts. */
  lemma {:induction false} CompletePrefix(parts: seq<Part>, i: nat, limits: Limits, depth: nat, c: Contents, entered: nat)
    requires i <= |parts|
    ensures CompleteAll(parts, limits, depth, c, entered) ==> CompleteAll(parts[..i], limits, depth, c, entered)
    decreases |parts| - i
  {
    if i == |parts| {
      assert parts[..i] == parts;
    } else {
      CompletePrefix(parts, i + 1, limits, depth, c, entered);
      CompleteStep(parts, i, limits, depth, c, entered);
    }
  }

  lemma OneMoreChild(c: Contents, parts: seq<Part>, i: nat, limits: Limits)
    requires i < |parts|
    ensures IncludingAll(c, parts[..i + 1], limits) == Including(IncludingAll(c, parts[..i], limits), parts[i], limits)
  {
    assert parts[..i + 1][..i] == parts[..i];
    JoinedConcat(c.text, BodiesOf(parts[..i], PlainText), Bodies(parts[i], PlainText));
    JoinedConcat(c.html, BodiesOf(parts[..i], Html), Bodies(parts[i], Html));
  }

  /** The branches of the walk, for a part whose headers were read whole. */
  lemma IncludingIs(c: Contents, p: Part, limits: Limits)
    ensures IsAttachment(p, p.filename) ==> Including(c, p, limits) == c.(files := c.files + [FileOf(p, limits.maxPartBytes)])
    ensures !IsAttachment(p, p.filename) && MediaOf(p).Multipart? ==> Including(c, p, limits) == IncludingAll(c, p.children, limits)
    ensures !IsAttachment(p, p.filename) && MediaOf(p).PlainText? ==> Including(c, p, limits) == c.(text := Joined(c.text, Piece(p)))
    ensures !IsAttachment(p, p.filename) && MediaOf(p).Html? ==> Including(c, p, limits) == c.(html := Joined(c.html, Piece(p)))
    ensures !IsAttachment(p, p.filename) && MediaOf(p).Other? ==> Including(c, p, limits) == c
  {
    assert c.files + [] == c.files;
  }

  lemma AttachedIs(s: Progress, p: Part, limits: Limits)
    requires |s.files| + s.filesLeft == limits.maxAttachments
    ensures var r := Attached(s, p, limits);
      && r.progress == s.(files := r.progress.files, filesLeft := r.progress.filesLeft, flagged := r.progress.flagged)
      && (s.flagged ==> r.progress.flagged) && s.files <= r.progress.files
      && (r.Going? && !r.progress.flagged <==> !s.flagged && |s.files| < limits.maxAttachments && CleanAttachment(p, limits))
      && (r.Going? && !r.progress.flagged ==>
        r.progress.files == s.files + [FileOf(p, limits.maxPartBytes).(filename := CutName(p, limits))])
      && (r.Stuck? ==> r.error.ReadFailed?)
  {
  }

  lemma PouredIs(s: Progress, p: Part)
    requires MediaOf(p).PlainText? || MediaOf(p).Html?
    ensures var r, html := Poured(s, p), MediaOf(p).Html?;
      && r.progress == s.(text := r.progress.text, html := r.progress.html, bodyLeft := r.progress.bodyLeft, cut := r.progress.cut)
      && (s.cut ==> r.progress.cut) && s.text <= r.progress.text && s.html <= r.progress.html
      && (r.Going? && !r.progress.cut <==>
        && !s.cut && Utf8Text.Valid(p.decoded) && !p.readFails && Growth(if html then s.html else s.text, Piece(p)) <= s.bodyLeft)
      && (r.Going? && !r.progress.cut ==>
        r.progress == if html then s.(html := Joined(s.html, Piece(p)), bodyLeft := r.progress.bodyLeft)
          else s.(text := Joined(s.text, Piece(p)), bodyLeft := r.progress.bodyLeft))
      && (r.Stuck? ==> r.error.ReadFailed?)
  {
    var target := if MediaOf(p).Html? then s.html else s.text;
    TakenIs(p.decoded, Available(target, s.bodyLeft));
    JoinedOne(target, p.decoded);
  }

  /** What the budget leaves for a content, after the newline before it. */
  function Available(target: Bytes, remaining: nat): int {
    if target == [] then remaining else remaining - 1
  }

  function Added(target: Bytes, content: Bytes): Bytes {
    if content == [] then target else if target == [] then content else target + NEWLINE + content
  }

  /** One body with a part's content added after a newline, and the budget left. */
  method Extend(target: Bytes, p: Part, remaining: nat) returns (r: Result<Filled, WalkError>)
    requires Utf8Text.Valid(target)
    ensures r.Success? ==> Utf8Text.Valid(r.value.body) && |r.value.body| + r.value.left == |target| + remaining
    ensures r.Failure? <==> Unreadable(target, p, remaining)
    ensures r.Failure? ==> r.error.ReadFailed?
    ensures r.Success? ==> r.value == Grown(target, p.decoded, remaining)
  {
    var separatorBytes := if |target| > 0 then 1 else 0;
    var available := remaining - separatorBytes;
    if available < 0 {
      available := 0;
    }
    NoneForNegative(p.decoded, Available(target, remaining));
    var part := ReadBodyPart(p.decoded, p.readFails, available);
    if part.Failure? {
      return Failure(part.error);
    }
    var (content, missing) := part.value;
    if |content| == 0 {
      return Success(Filled(target, remaining, missing));
    }
    AddedIs(target, content);
    var body := if separatorBytes > 0 then target + NEWLINE else target;
    body := body + content;
    return Success(Filled(body, remaining - (separatorBytes + |content|), missing));
  }

  lemma NoneForNegative(decoded: Bytes, limit: int)
    ensures Taken(decoded, Max0(limit)) == Taken(decoded, limit)
  {
  }

  lemma AddedIs(target: Bytes, content: Bytes)
    requires Utf8Text.Valid(target) && Utf8Text.Valid(content) && content != []
    ensures Utf8Text.Valid(Added(target, content))
    ensures Added(target, content) == (if |target| > 0 then target + NEWLINE else target) + content
    ensures |Added(target, content)| == |target| + |content| + if target == [] then 0 else 1
  {
    JoinValid(target, content);
    if target == [] { assert target + content == content; }
  }

  lemma JoinedOne(body: Bytes, piece: Bytes)
    ensures Joined(body, [piece]) == if body == [] then piece else body + NEWLINE + piece
    ensures Joined(body, []) == body
  {
    assert [piece][..0] == [];
  }

  lemma JoinValid(body: Bytes, piece: Bytes)
    requires Utf8Text.Valid(body) && Utf8Text.Valid(piece)
    ensures Utf8Text.Valid(body + piece) && Utf8Text.Valid(body + NEWLINE + piece)
  {
    ValidConcat(body, piece);
    assert RuneLength(NEWLINE) == 1 && NEWLINE[1..] == [];
    ValidConcat(body, NEWLINE);
    ValidConcat(body + NEWLINE, piece);
  }
}
