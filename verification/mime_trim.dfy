/** Fitting a parsed message into a byte bound: headers first, then attachments, then both
    bodies sharing what is left. */
module MimeTrim {
  import opened Basics
  import opened Utf8Text
  import opened MimeWalk

  const BASE_BYTES := 256
  const ADDRESS_BYTES := 64
  const ATTACHMENT_BYTES := 64

  datatype MailAddress = MailAddress(name: Bytes, email: Bytes)

  datatype Message = Message(
    messageID: Bytes, subject: Bytes, from: seq<MailAddress>, to: seq<MailAddress>, cc: seq<MailAddress>,
    attachments: seq<Attachment>, textBody: Bytes, htmlBody: Bytes, bodyTruncated: bool)

  function AddressBytes(a: seq<MailAddress>): nat {
    if a == [] then 0
    else AddressBytes(a[..|a| - 1]) + ADDRESS_BYTES + |a[|a| - 1].name| + |a[|a| - 1].email|
  }

  function FileBytes(a: seq<Attachment>): nat {
    if a == [] then 0
    else FileBytes(a[..|a| - 1]) + ATTACHMENT_BYTES + |a[|a| - 1].filename| + |a[|a| - 1].contentType|
  }

  /** `parsedMessageResultBytes`. */
  function ResultBytes(m: Message): nat {
    BASE_BYTES + |m.messageID| + |m.subject| + |m.textBody| + |m.htmlBody|
      + AddressBytes(m.from) + AddressBytes(m.to) + AddressBytes(m.cc) + FileBytes(m.attachments)
  }

  /** `takeResultString`: a prefix that fits, taken out of the remaining bytes. */
  method TakeResultString(value: Bytes, remaining: int) returns (r: Bytes, left: int)
    ensures r == (if remaining <= 0 then [] else Truncated(value, if |value| < remaining then |value| else remaining))
    ensures left >= 0 && |r| + left == Max0(remaining)
    ensures Kept(r, value, left)
    ensures Utf8Text.Valid(value) && |value| <= Max0(remaining) ==> r == value
  {
    KeepsPrefix(value, remaining);
    if remaining <= 0 || value == [] {
      return [], if remaining > 0 then remaining else 0;
    }
    var limit := if |value| < remaining then |value| else remaining;
    var cut;
    r, cut := TruncateUTF8(value, limit);
    TruncatedIsValid(value, limit);
    Loss(value, limit);
    return r, remaining - |r|;
  }

  /** A prefix, and a proper one only if less than a character is left over. */
  ghost predicate Kept(kept: Bytes, value: Bytes, left: nat) {
    && Utf8Text.Valid(kept)
    && (Utf8Text.Valid(value) ==> kept <= value && (kept != value ==> left <= 3))
  }

  /** A text cut to what an item leaves, if the item's fixed cost fits at all. */
  method TakeText(text: Bytes, baseCost: nat, remaining: nat) returns (fits: bool, kept: Bytes, left: nat)
    ensures fits <==> baseCost <= remaining
    ensures fits ==> baseCost + |kept| + left == remaining && Kept(kept, text, left)
    ensures !fits ==> left == remaining
  {
    if remaining < baseCost {
      return false, [], remaining;
    }
    fits := true;
    kept, left := TakeResultString(text, remaining - baseCost);
  }

  ghost predicate AddressKept(kept: MailAddress, value: MailAddress, left: nat) {
    kept.email == value.email && Kept(kept.name, value.name, left)
  }

  /** The first addresses, with their e-mail addresses whole and names cut if necessary. */
  ghost predicate AddressPrefix(kept: seq<MailAddress>, values: seq<MailAddress>, left: nat) {
    |kept| <= |values| && forall i :: 0 <= i < |kept| ==> AddressKept(kept[i], values[i], left)
  }

  /** The next one has no room any more. */
  ghost predicate AddressesKept(kept: seq<MailAddress>, values: seq<MailAddress>, left: nat) {
    AddressPrefix(kept, values, left) && (|kept| < |values| ==> left < ADDRESS_BYTES + |values[|kept|].email|)
  }

  lemma AddressPrefixShrinks(kept: seq<MailAddress>, values: seq<MailAddress>, left: nat, less: nat, x: MailAddress)
    requires AddressPrefix(kept, values, left) && less <= left && |kept| < |values| && AddressKept(x, values[|kept|], less)
    ensures AddressPrefix(kept + [x], values, less)
  {
    forall i | 0 <= i < |kept| + 1 ensures AddressKept((kept + [x])[i], values[i], less) {
      if i < |kept| { assert AddressKept(kept[i], values[i], left); }
    }
  }

  lemma AddressBytesAppend(a: seq<MailAddress>, x: MailAddress)
    ensures AddressBytes(a + [x]) == AddressBytes(a) + ADDRESS_BYTES + |x.name| + |x.email|
  {
    assert (a + [x])[..|a|] == a;
  }

  /** `takeResultAddresses`. */
  method TakeResultAddresses(values: seq<MailAddress>, remaining: nat) returns (r: seq<MailAddress>, left: nat)
    ensures AddressBytes(r) + left == remaining && AddressesKept(r, values, left)
  {
    r, left := [], remaining;
    for i := 0 to |values|
      invariant |r| == i && AddressBytes(r) + left == remaining && AddressPrefix(r, values, left)
    {
      var fits, name, rest := TakeText(values[i].name, ADDRESS_BYTES + |values[i].email|, left);
      if !fits {
        return;
      }
      AddressBytesAppend(r, MailAddress(name, values[i].email));
      AddressPrefixShrinks(r, values, left, rest, MailAddress(name, values[i].email));
      r, left := r + [MailAddress(name, values[i].email)], rest;
    }
  }

  ghost predicate FileKept(kept: Attachment, value: Attachment, left: nat) {
    kept.contentType == value.contentType && kept.size == value.size && Kept(kept.filename, value.filename, left)
  }

  ghost predicate FilePrefix(kept: seq<Attachment>, values: seq<Attachment>, left: nat) {
    |kept| <= |values| && forall i :: 0 <= i < |kept| ==> FileKept(kept[i], values[i], left)
  }

  ghost predicate FilesKept(kept: seq<Attachment>, values: seq<Attachment>, left: nat) {
    FilePrefix(kept, values, left) && (|kept| < |values| ==> left < ATTACHMENT_BYTES + |values[|kept|].contentType|)
  }

  lemma FilePrefixShrinks(kept: seq<Attachment>, values: seq<Attachment>, left: nat, less: nat, x: Attachment)
    requires FilePrefix(kept, values, left) && less <= left && |kept| < |values| && FileKept(x, values[|kept|], less)
    ensures FilePrefix(kept + [x], values, less)
  {
    forall i | 0 <= i < |kept| + 1 ensures FileKept((kept + [x])[i], values[i], less) {
      if i < |kept| { assert FileKept(kept[i], values[i], left); }
    }
  }

  lemma FileBytesAppend(a: seq<Attachment>, x: Attachment)
    ensures FileBytes(a + [x]) == FileBytes(a) + ATTACHMENT_BYTES + |x.filename| + |x.contentType|
  {
    assert (a + [x])[..|a|] == a;
  }

  /** `takeResultAttachments`. */
  method TakeResultAttachments(values: seq<Attachment>, remaining: nat) returns (r: seq<Attachment>, left: nat)
    ensures FileBytes(r) + left == remaining && FilesKept(r, values, left)
  {
    r, left := [], remaining;
    for i := 0 to |values|
      invariant |r| == i && FileBytes(r) + left == remaining && FilePrefix(r, values, left)
    {
      var value := values[i];
      var fits, filename, rest := TakeText(value.filename, ATTACHMENT_BYTES + |value.contentType|, left);
      if !fits {
        return;
      }
      FileBytesAppend(r, Attachment(filename, value.contentType, value.size));
      FilePrefixShrinks(r, values, left, rest, Attachment(filename, value.contentType, value.size));
      r, left := r + [Attachment(filename, value.contentType, value.size)], rest;
    }
  }

  /** Both bodies whole if they fit; otherwise each keeps at least its own half of the space
      (or all it needs), up to the character at the cut, and what one does not need goes to
      the other. */
  ghost predicate BodiesKept(text: Bytes, html: Bytes, textBody: Bytes, htmlBody: Bytes, space: nat) {
    && |text| + |html| <= space
    && (0 < space && |textBody| + |htmlBody| <= space ==> text == textBody && html == htmlBody)
    && (Utf8Text.Valid(textBody) && Utf8Text.Valid(htmlBody) ==>
      && text <= textBody && html <= htmlBody
      && |text| >= Min(|textBody|, space / 2) - 3 && |html| >= Min(|htmlBody|, space / 2) - 3
      && |text| + |html| >= Min(|textBody| + |htmlBody|, space) - 6)
  }

  /** `takeResultBodies`. */
  method TakeResultBodies(textBody: Bytes, htmlBody: Bytes, remaining: int) returns (text: Bytes, html: Bytes)
    ensures |text| + |html| <= Max0(remaining)
    ensures 0 < remaining && |textBody| + |htmlBody| <= remaining ==> text == textBody && html == htmlBody
    ensures Utf8Text.Valid(textBody) && Utf8Text.Valid(htmlBody) && remaining >= 0 ==>
      && text <= textBody && html <= htmlBody
      && |text| >= Min(|textBody|, remaining / 2) - 3 && |html| >= Min(|htmlBody|, remaining / 2) - 3
      && |text| + |html| >= Min(|textBody| + |htmlBody|, remaining) - 6
  {
    if remaining <= 0 {
      return [], [];
    }
    if |textBody| + |htmlBody| <= remaining {
      return textBody, htmlBody;
    }
    var cut;
    if textBody == [] {
      html, cut := TruncateUTF8(htmlBody, remaining);
      Loss(htmlBody, remaining);
      return [], html;
    }
    if htmlBody == [] {
      text, cut := TruncateUTF8(textBody, remaining);
      Loss(textBody, remaining);
      return text, [];
    }
    var textBudget := remaining / 2;
    var htmlBudget := remaining - textBudget;
    if |textBody| < textBudget {
      htmlBudget := htmlBudget + (textBudget - |textBody|);
      textBudget := |textBody|;
    }
    if |htmlBody| < htmlBudget {
      textBudget := textBudget + (htmlBudget - |htmlBody|);
      htmlBudget := |htmlBody|;
    }
    text, cut := TruncateUTF8(textBody, textBudget);
    html, cut := TruncateUTF8(htmlBody, htmlBudget);
    Loss(textBody, textBudget);
    Loss(htmlBody, htmlBudget);
  }

  /** A cut loses at most three bytes. */
  lemma Loss(value: Bytes, limit: nat)
    ensures Utf8Text.Valid(value) ==> Truncated(value, limit) <= value && |Truncated(value, limit)| >= Min(|value|, limit) - 3
  {
    TruncatedIsValid(value, limit);
    if Utf8Text.Valid(value) {
      ToValidOfValid(value, false);
      if |value| > limit { CutIsTight(value, limit); }
    }
  }

  /** What a bound leaves after the headers, the addresses and the attachments of m. */
  function AfterHeaders(m: Message, bound: int): int {
    bound - BASE_BYTES - |m.messageID| - |m.subject|
  }

  function AfterAddresses(m: Message, bound: int): int {
    AfterHeaders(m, bound) - AddressBytes(m.from) - AddressBytes(m.to) - AddressBytes(m.cc)
  }

  function AfterAttachments(m: Message, bound: int): int {
    AfterAddresses(m, bound) - FileBytes(m.attachments)
  }

  /** m is what is kept of o within the bound: each part is cut only when what comes before it
      has left no room. */
  ghost predicate Trimmed(m: Message, o: Message, bound: int) {
    && AfterAttachments(m, bound) >= 0
    && Kept(m.messageID, o.messageID, bound - BASE_BYTES - |m.messageID|)
    && Kept(m.subject, o.subject, AfterHeaders(m, bound))
    && AddressesKept(m.from, o.from, AfterHeaders(m, bound) - AddressBytes(m.from))
    && AddressesKept(m.to, o.to, AfterHeaders(m, bound) - AddressBytes(m.from) - AddressBytes(m.to))
    && AddressesKept(m.cc, o.cc, AfterAddresses(m, bound))
    && FilesKept(m.attachments, o.attachments, AfterAttachments(m, bound))
    && BodiesKept(m.textBody, m.htmlBody, o.textBody, o.htmlBody, AfterAttachments(m, bound))
  }

  /** The part of `trimParsedMessageToBytes` after the size check. */
  method Trim(o: Message, bound: nat) returns (m: Message)
    requires bound >= BASE_BYTES
    ensures Trimmed(m, o, bound) && m.bodyTruncated
  {
    var messageID, afterID := TakeResultString(o.messageID, bound - BASE_BYTES);
    var subject, afterSubject := TakeResultString(o.subject, afterID);
    var from, to, cc, afterCC := TrimAddresses(o, afterSubject);
    var attachments, left := TakeResultAttachments(o.attachments, afterCC);
    var text, html := TakeResultBodies(o.textBody, o.htmlBody, left);
    m := Message(messageID, subject, from, to, cc, attachments, text, html, true);
    TrimmedIs(m, o, bound, afterID, afterSubject, afterCC, left);
  }

  lemma TrimmedIs(m: Message, o: Message, bound: int, afterID: nat, afterSubject: nat, afterCC: nat, left: nat)
    requires |m.messageID| + afterID == bound - BASE_BYTES && |m.subject| + afterSubject == afterID
    requires AddressBytes(m.from) + AddressBytes(m.to) + AddressBytes(m.cc) + afterCC == afterSubject
    requires FileBytes(m.attachments) + left == afterCC
    requires Kept(m.messageID, o.messageID, afterID) && Kept(m.subject, o.subject, afterSubject)
    requires AddressesKept(m.from, o.from, afterSubject - AddressBytes(m.from))
    requires AddressesKept(m.to, o.to, afterSubject - AddressBytes(m.from) - AddressBytes(m.to))
    requires AddressesKept(m.cc, o.cc, afterCC) && FilesKept(m.attachments, o.attachments, left)
    requires BodiesKept(m.textBody, m.htmlBody, o.textBody, o.htmlBody, left)
    ensures Trimmed(m, o, bound)
  {
  }

  method TrimAddresses(o: Message, remaining: nat) returns (from: seq<MailAddress>, to: seq<MailAddress>, cc: seq<MailAddress>, left: nat)
    ensures AddressBytes(from) + AddressBytes(to) + AddressBytes(cc) + left == remaining
    ensures AddressesKept(from, o.from, remaining - AddressBytes(from))
    ensures AddressesKept(to, o.to, remaining - AddressBytes(from) - AddressBytes(to))
    ensures AddressesKept(cc, o.cc, left)
  {
    var afterFrom, afterTo;
    from, afterFrom := TakeResultAddresses(o.from, remaining);
    to, afterTo := TakeResultAddresses(o.to, afterFrom);
    cc, left := TakeResultAddresses(o.cc, afterTo);
  }

  lemma TrimmedFits(m: Message, o: Message, bound: nat)
    requires Trimmed(m, o, bound)
    ensures ResultBytes(m) <= bound
  {
  }

  class ParsedMessage {
    var message: Message

    constructor (message: Message)
      ensures this.message == message
    {
      this.message := message;
    }

    /** `trimParsedMessageToBytes`: a message within the bound is left alone, any other is cut
        down to it and marked. */
    method TrimToBytes(limit: int)
      modifies this
      ensures var bound := if limit < BASE_BYTES then BASE_BYTES else limit;
        && ResultBytes(message) <= bound
        && (ResultBytes(old(message)) <= bound ==> message == old(message))
        && (ResultBytes(old(message)) > bound ==> message.bodyTruncated && Trimmed(message, old(message), bound))
    {
      var bound := if limit < BASE_BYTES then BASE_BYTES else limit;
      if ResultBytes(message) <= bound {
        return;
      }
      message := Trim(message, bound);
      TrimmedFits(message, old(message), bound);
    }
  }

  lemma KeepsPrefix(value: Bytes, remaining: int)
    ensures Utf8Text.Valid([])
    ensures remaining > 0 ==>
      var kept := Truncated(value, if |value| < remaining then |value| else remaining);
      Utf8Text.Valid(kept) && (Utf8Text.Valid(value) ==> kept <= value)
  {
    if remaining > 0 { TruncatedIsValid(value, if |value| < remaining then |value| else remaining); }
  }
}
