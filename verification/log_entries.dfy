/** How a log record becomes a bounded entry. */
module LogEntries {
  import opened Basics
  import opened Utf8Text

  const FIELD_OVERHEAD := 16
  const ENTRY_OVERHEAD := 64
  const MAX_MESSAGE_BYTES := 4096
  const MAX_FIELD_KEY_BYTES := 256
  const MAX_FIELD_VALUE_BYTES := 2048
  const MAX_ENTRY_BYTES := 16384
  const MAX_STORED_BYTES := 33554432
  const MAX_FIELDS := 64
  const MAX_SOURCE_BYTES := 512

  type Text = seq<Byte>

  datatype Limits = Limits(
    messageBytes: int, fieldKeyBytes: int, fieldValueBytes: int, entryBytes: int, totalBytes: int, fields: int, sourceBytes: int)

  predicate Normal(l: Limits) {
    && l.messageBytes > 0 && l.fieldKeyBytes > 0 && l.fieldValueBytes > 0 && l.fields > 0 && l.sourceBytes > 0
    && l.entryBytes > ENTRY_OVERHEAD && l.totalBytes >= l.entryBytes
  }

  /** `defaultLimits`. */
  const DEFAULTS := Limits(MAX_MESSAGE_BYTES, MAX_FIELD_KEY_BYTES, MAX_FIELD_VALUE_BYTES, MAX_ENTRY_BYTES,
    MAX_STORED_BYTES, MAX_FIELDS, MAX_SOURCE_BYTES)

  /** A setting is kept, or was unusable and has its default. */
  predicate Corrected(value: int, configured: int, usable: bool, byDefault: int) {
    value == if usable then configured else byDefault
  }

  /** `normalizedLimits`: usable limits; a setting that was usable is kept, any other gets its
      own default, and the total never drops below one entry. */
  method NormalizedLimits(configured: Limits) returns (value: Limits)
    ensures Normal(value) && (Normal(configured) ==> value == configured)
    ensures Corrected(value.messageBytes, configured.messageBytes, configured.messageBytes > 0, DEFAULTS.messageBytes)
    ensures Corrected(value.fieldKeyBytes, configured.fieldKeyBytes, configured.fieldKeyBytes > 0, DEFAULTS.fieldKeyBytes)
    ensures Corrected(value.fieldValueBytes, configured.fieldValueBytes, configured.fieldValueBytes > 0, DEFAULTS.fieldValueBytes)
    ensures Corrected(value.entryBytes, configured.entryBytes, configured.entryBytes > ENTRY_OVERHEAD, DEFAULTS.entryBytes)
    ensures Corrected(value.totalBytes, configured.totalBytes, configured.totalBytes >= value.entryBytes, value.entryBytes)
    ensures Corrected(value.fields, configured.fields, configured.fields > 0, DEFAULTS.fields)
    ensures Corrected(value.sourceBytes, configured.sourceBytes, configured.sourceBytes > 0, DEFAULTS.sourceBytes)
  {
    value := configured;
    if value.messageBytes <= 0 { value := value.(messageBytes := MAX_MESSAGE_BYTES); }
    if value.fieldKeyBytes <= 0 { value := value.(fieldKeyBytes := MAX_FIELD_KEY_BYTES); }
    if value.fieldValueBytes <= 0 { value := value.(fieldValueBytes := MAX_FIELD_VALUE_BYTES); }
    if value.entryBytes <= ENTRY_OVERHEAD { value := value.(entryBytes := MAX_ENTRY_BYTES); }
    if value.totalBytes < value.entryBytes { value := value.(totalBytes := value.entryBytes); }
    if value.fields <= 0 { value := value.(fields := MAX_FIELDS); }
    if value.sourceBytes <= 0 { value := value.(sourceBytes := MAX_SOURCE_BYTES); }
  }

  datatype Field = Field(key: Text, value: Text)

  ghost predicate DistinctFields(fields: seq<Field>) {
    forall i, j :: 0 <= i < j < |fields| ==> fields[i].key != fields[j].key
  }

  /** The last value given to a key. */
  function LastValue(fields: seq<Field>, key: Text): Text {
    if fields == [] then [] else if fields[|fields| - 1].key == key then fields[|fields| - 1].value
    else LastValue(fields[..|fields| - 1], key)
  }

  predicate Slot(values: seq<Field>, index: map<Text, nat>, i: nat)
    requires i < |values|
  {
    values[i].key in index && index[values[i].key] == i
  }

  predicate Home(values: seq<Field>, index: map<Text, nat>, key: Text)
    requires key in index
  {
    index[key] < |values| && values[index[key]].key == key
  }

  predicate Latest(field: Field, added: seq<Field>, limit: int) {
    field.value == LastValue(added, field.key) && |field.key| <= Max0(limit) && Utf8Text.Valid(field.key)
  }

  ghost predicate Collected(values: seq<Field>, index: map<Text, nat>, added: seq<Field>, limit: int) {
    && (forall i: nat :: i < |values| ==> Slot(values, index, i))
    && (forall key :: key in index ==> Home(values, index, key))
    && (forall i: nat :: i < |values| ==> Latest(values[i], added, limit))
    && (forall k: nat :: k < |added| ==> added[k].key in index)
  }

  /** The pairs with their keys shortened. */
  function Shortened(attrs: seq<Field>, limit: int): seq<Field> {
    seq(|attrs|, k requires 0 <= k < |attrs| => Field(Ellipsized(attrs[k].key, limit), attrs[k].value))
  }

  lemma ShortenedStep(attrs: seq<Field>, k: nat, limit: int)
    requires k < |attrs|
    ensures Shortened(attrs[..k + 1], limit) == Shortened(attrs[..k], limit) + [Field(Ellipsized(attrs[k].key, limit), attrs[k].value)]
  {
  }

  ghost predicate HasKey(values: seq<Field>, key: Text) {
    exists i: nat :: i < |values| && values[i].key == key
  }

  /** What the collector makes of the pairs added to it: one field for every shortened key, with
      the last value given to it. */
  ghost predicate Gathered(values: seq<Field>, attrs: seq<Field>, limit: int) {
    && DistinctFields(values)
    && (forall i: nat :: i < |values| ==> Latest(values[i], Shortened(attrs, limit), limit))
    && (forall k: nat :: k < |attrs| ==> HasKey(values, Shortened(attrs, limit)[k].key))
  }

  lemma CollectedIsGathered(values: seq<Field>, index: map<Text, nat>, attrs: seq<Field>, limit: int)
    requires Collected(values, index, Shortened(attrs, limit), limit)
    ensures Gathered(values, attrs, limit)
  {
    forall i, j | 0 <= i < j < |values| ensures values[i].key != values[j].key {
      assert Slot(values, index, i) && Slot(values, index, j);
    }
    forall k: nat | k < |attrs| ensures HasKey(values, Shortened(attrs, limit)[k].key) {
      var key := Shortened(attrs, limit)[k].key;
      assert Home(values, index, key);
    }
  }

  lemma LastValueAfter(added: seq<Field>, field: Field, key: Text)
    ensures LastValue(added + [field], key) == if key == field.key then field.value else LastValue(added, key)
  {
    assert (added + [field])[..|added|] == added;
  }

  lemma ReplaceKeeps(values: seq<Field>, index: map<Text, nat>, added: seq<Field>, limit: int, field: Field)
    requires Collected(values, index, added, limit) && field.key in index && |field.key| <= Max0(limit) && Utf8Text.Valid(field.key)
    ensures index[field.key] < |values|
    ensures Collected(values[index[field.key] := field], index, added + [field], limit)
  {
    assert Home(values, index, field.key);
    var after := values[index[field.key] := field];
    forall i: nat | i < |after| ensures Slot(after, index, i) && Latest(after[i], added + [field], limit) {
      assert Slot(values, index, i) && Latest(values[i], added, limit);
      LastValueAfter(added, field, after[i].key);
    }
    forall key | key in index ensures Home(after, index, key) {
      assert Home(values, index, key);
    }
  }

  lemma AppendKeeps(values: seq<Field>, index: map<Text, nat>, added: seq<Field>, limit: int, field: Field)
    requires Collected(values, index, added, limit) && field.key !in index && |field.key| <= Max0(limit) && Utf8Text.Valid(field.key)
    ensures Collected(values + [field], index[field.key := |values|], added + [field], limit)
  {
    var after, indexed := values + [field], index[field.key := |values|];
    forall i: nat | i < |after| ensures Slot(after, indexed, i) && Latest(after[i], added + [field], limit) {
      if i < |values| { assert Slot(values, index, i) && Latest(values[i], added, limit); }
      LastValueAfter(added, field, after[i].key);
    }
    forall key | key in indexed ensures Home(after, indexed, key) {
      if key != field.key { assert Home(values, index, key); }
    }
  }

  /** `fieldCollector`: keys in order of first use, each with its latest value. */
  class FieldCollector {
    const limits: Limits
    var values: seq<Field>
    var index: map<Text, nat>
    /** Every (truncated) key and value ever added. */
    ghost var added: seq<Field>

    ghost predicate Valid()
      reads this
    {
      Collected(values, index, added, limits.fieldKeyBytes)
    }

    constructor (limits: Limits)
      ensures Valid() && values == [] && added == [] && this.limits == limits
    {
      this.limits, values, index, added := limits, [], map[], [];
    }

    /** `addValue`. */
    method AddValue(flattened: Text, field: Text)
      requires Valid()
      modifies this
      ensures Valid() && added == old(added) + [Field(Ellipsized(flattened, limits.fieldKeyBytes), field)]
      ensures var last := Field(Ellipsized(flattened, limits.fieldKeyBytes), field);
        values == if last.key in old(index) && old(index)[last.key] < |old(values)|
          then old(values)[old(index)[last.key] := last] else old(values) + [last]
    {
      var key := TruncateWithEllipsis(flattened, limits.fieldKeyBytes);
      added := added + [Field(key, field)];
      assert key in index ==> Home(values, index, key);
      if key in index {
        ReplaceKeeps(values, index, old(added), limits.fieldKeyBytes, Field(key, field));
        values := values[index[key] := Field(key, field)];
      } else {
        AppendKeeps(values, index, old(added), limits.fieldKeyBytes, Field(key, field));
        index := index[key := |values|];
        values := values + [Field(key, field)];
      }
    }
  }

  /** The collecting part of `Handle`. */
  method Collect(attrs: seq<Field>, limits: Limits) returns (values: seq<Field>)
    ensures Gathered(values, attrs, limits.fieldKeyBytes)
  {
    var collector := new FieldCollector(limits);
    for k := 0 to |attrs|
      invariant collector.Valid() && collector.limits == limits
      invariant collector.added == Shortened(attrs[..k], limits.fieldKeyBytes)
    {
      ShortenedStep(attrs, k, limits.fieldKeyBytes);
      collector.AddValue(attrs[k].key, attrs[k].value);
    }
    assert attrs[..|attrs|] == attrs;
    CollectedIsGathered(collector.values, collector.index, attrs, limits.fieldKeyBytes);
    return collector.values;
  }

  datatype Entry = Entry(id: nat, level: int, message: Text, source: Text, fields: map<Text, Text>)

  /** The approximate encoded size of a list of fields. */
  function FieldBytes(fields: seq<Field>): nat {
    if fields == [] then 0
    else FieldBytes(fields[..|fields| - 1]) + |fields[|fields| - 1].key| + FIELD_OVERHEAD + |fields[|fields| - 1].value|
  }

  function FieldMap(fields: seq<Field>): map<Text, Text> {
    if fields == [] then map[] else FieldMap(fields[..|fields| - 1])[fields[|fields| - 1].key := fields[|fields| - 1].value]
  }

  lemma {:induction false} FieldMapKey(fields: seq<Field>, key: Text)
    ensures key in FieldMap(fields) ==> exists i :: 0 <= i < |fields| && fields[i].key == key
  {
    if fields != [] && key in FieldMap(fields) {
      var front := fields[..|fields| - 1];
      if key != fields[|fields| - 1].key {
        FieldMapKey(front, key);
        var i :| 0 <= i < |front| && front[i].key == key;
        assert fields[i].key == key;
      }
    }
  }

  /** Fields with different keys all end up in the entry. */
  lemma {:induction false} FieldMapKeeps(fields: seq<Field>, i: nat)
    requires DistinctFields(fields) && i < |fields|
    ensures |FieldMap(fields)| == |fields|
    ensures fields[i].key in FieldMap(fields) && FieldMap(fields)[fields[i].key] == fields[i].value
  {
    var n := |fields| - 1;
    var front, last := fields[..n], fields[n];
    FieldMapKey(front, last.key);
    assert last.key !in FieldMap(front);
    if n > 0 { FieldMapKeeps(front, if i < n then i else 0); }
    assert FieldMap(fields) == FieldMap(front)[last.key := last.value];
  }

  /** Nothing that was retained is missing from the entry. */
  ghost predicate HoldsAll(fields: map<Text, Text>, retained: seq<Field>) {
    |fields| == |retained| && forall i: nat :: i < |retained| ==> HasField(fields, retained[i])
  }

  predicate HasField(fields: map<Text, Text>, field: Field) {
    field.key in fields && fields[field.key] == field.value
  }

  /** A text within its own limit and within what is left of the entry. */
  function Fitted(value: Text, individualLimit: int, remaining: int): Text {
    if remaining <= 0 then [] else Ellipsized(value, Min(individualLimit, remaining))
  }

  /** `fitText`. */
  method FitText(value: Text, individualLimit: int, remaining: int) returns (text: Text, left: int)
    requires individualLimit > 0
    ensures text == Fitted(value, individualLimit, remaining) && left == remaining - |text|
    ensures Utf8Text.Valid(text) && |text| <= individualLimit && (remaining >= 0 ==> left >= 0)
    ensures Utf8Text.Valid(value) && |value| <= individualLimit && |value| <= remaining ==> text == value
  {
    if remaining <= 0 {
      return [], remaining;
    }
    var limit := if individualLimit < remaining then individualLimit else remaining;
    text := TruncateWithEllipsis(value, limit);
    left := remaining - |text|;
  }

  /** A field within its limits; its value is cut further only if that fills the entry. */
  ghost predicate KeptField(kept: Field, value: Field, limits: Limits, left: int) {
    && kept.key == Ellipsized(value.key, limits.fieldKeyBytes)
    && (left > 3 ==> kept.value == Ellipsized(value.value, limits.fieldValueBytes))
    && |kept.value| <= limits.fieldValueBytes && Utf8Text.Valid(kept.value)
    && (Utf8Text.Valid(value.value) ==> |kept.value| <= |value.value|)
  }

  /** The fields of an entry: the first ones. */
  ghost predicate FromFront(retained: seq<Field>, values: seq<Field>, limits: Limits, left: int) {
    && |retained| <= |values| && |retained| <= limits.fields
    && forall i: nat {:trigger KeptField(retained[i], values[i], limits, left)} ::
      i < |retained| ==> KeptField(retained[i], values[i], limits, left)
  }

  /** Not even an empty value of the next field would fit. */
  ghost predicate NoRoom(retained: seq<Field>, values: seq<Field>, limits: Limits, left: int) {
    |retained| < |values| && left <= |Ellipsized(values[|retained|].key, limits.fieldKeyBytes)| + FIELD_OVERHEAD
  }

  lemma KeptUnderLess(kept: Field, value: Field, limits: Limits, left: int, less: int)
    requires KeptField(kept, value, limits, left) && less <= left
    ensures KeptField(kept, value, limits, less)
  {
  }

  lemma OneMore(retained: seq<Field>, values: seq<Field>, limits: Limits, left: int, kept: Field, less: int)
    requires FromFront(retained, values, limits, left) && |retained| < |values| && |retained| < limits.fields
    requires KeptField(kept, values[|retained|], limits, less) && less <= left
    ensures FromFront(retained + [kept], values, limits, less)
  {
    var more := retained + [kept];
    forall i: nat | i < |more| ensures KeptField(more[i], values[i], limits, less) {
      if i < |retained| { KeptUnderLess(retained[i], values[i], limits, left, less); }
    }
  }

  lemma OneMoreField(retained: seq<Field>, kept: Field)
    ensures FieldMap(retained + [kept]) == FieldMap(retained)[kept.key := kept.value]
    ensures FieldBytes(retained + [kept]) == FieldBytes(retained) + |kept.key| + FIELD_OVERHEAD + |kept.value|
  {
    assert (retained + [kept])[..|retained|] == retained;
  }

  /** One field of the loop, unless the entry has no room for it. */
  method KeepField(field: Field, limits: Limits, remaining: int) returns (fits: bool, kept: Field, left: int)
    requires Normal(limits) && remaining >= 0
    ensures fits <==> remaining > |Ellipsized(field.key, limits.fieldKeyBytes)| + FIELD_OVERHEAD
    ensures left == if fits then remaining - (|kept.key| + FIELD_OVERHEAD + |kept.value|) else remaining
    ensures left >= 0 && (fits ==> KeptField(kept, field, limits, left))
  {
    var key := TruncateWithEllipsis(field.key, limits.fieldKeyBytes);
    var need := |key| + FIELD_OVERHEAD;
    if remaining <= need {
      return false, Field(key, []), remaining;
    }
    var valueBudget := Min(limits.fieldValueBytes, remaining - need);
    var value := TruncateWithEllipsis(field.value, valueBudget);
    EllipsizedIs(field.value, valueBudget);
    EllipsizedIs(field.value, limits.fieldValueBytes);
    return true, Field(key, value), remaining - (need + |value|);
  }

  /** The field loop of `buildEntry`. */
  method KeepFields(values: seq<Field>, limits: Limits, budget: int)
    returns (fields: map<Text, Text>, left: int, ghost retained: seq<Field>)
    requires Normal(limits) && budget >= 0
    ensures fields == FieldMap(retained) && FromFront(retained, values, limits, left)
    ensures 0 <= left == budget - FieldBytes(retained)
    ensures |retained| == |values| || |retained| == limits.fields || NoRoom(retained, values, limits, left)
  {
    left, fields, retained := budget, map[], [];
    for count := 0 to |values|
      invariant count == |retained| <= limits.fields && left >= 0
      invariant fields == FieldMap(retained) && FromFront(retained, values, limits, left)
      invariant left == budget - FieldBytes(retained)
    {
      if count >= limits.fields {
        return;
      }
      var fits, kept, rest := KeepField(values[count], limits, left);
      if !fits {
        return;
      }
      OneMore(retained, values, limits, left, kept, rest);
      OneMoreField(retained, kept);
      fields, retained, left := fields[kept.key := kept.value], retained + [kept], rest;
    }
  }

  /** What `buildEntry` makes of a record: message, source and fields in this order, each whole
      as long as there is room. */
  ghost predicate Built(entry: Entry, size: int, retained: seq<Field>, message: Text, source: Text, values: seq<Field>, limits: Limits) {
    var room := limits.entryBytes - ENTRY_OVERHEAD;
    && entry.message == Fitted(message, limits.messageBytes, room)
    && entry.source == Fitted(source, limits.sourceBytes, room - |entry.message|)
    && entry.fields == FieldMap(retained) && FromFront(retained, values, limits, limits.entryBytes - size)
    && (|retained| == |values| || |retained| == limits.fields || NoRoom(retained, values, limits, limits.entryBytes - size))
    && size == ENTRY_OVERHEAD + |entry.message| + |entry.source| + FieldBytes(retained)
  }

  /** `buildEntry`: the reported size is exactly the overheads and the bytes kept, and never
      exceeds the entry limit. */
  method BuildEntry(level: int, message: Text, source: Text, values: seq<Field>, limits: Limits)
    returns (entry: Entry, size: int, ghost retained: seq<Field>)
    requires Normal(limits)
    ensures Built(entry, size, retained, message, source, values, limits) && entry.level == level
    ensures ENTRY_OVERHEAD <= size <= limits.entryBytes
  {
    var text, afterText := FitText(message, limits.messageBytes, limits.entryBytes - ENTRY_OVERHEAD);
    var place, afterSource := FitText(source, limits.sourceBytes, afterText);
    var fields, left;
    fields, left, retained := KeepFields(values, limits, afterSource);
    entry, size := Entry(0, level, text, place, fields), limits.entryBytes - left;
  }

  /** Collects the fields of a record and builds its entry. */
  method Record(level: int, message: Text, source: Text, attrs: seq<Field>, limits: Limits)
    returns (entry: Entry, size: int, ghost values: seq<Field>, ghost retained: seq<Field>)
    requires Normal(limits)
    ensures Gathered(values, attrs, limits.fieldKeyBytes) && HoldsAll(entry.fields, retained)
    ensures Built(entry, size, retained, message, source, values, limits) && entry.level == level
    ensures ENTRY_OVERHEAD <= size <= limits.entryBytes
  {
    var collected := Collect(attrs, limits);
    values := collected;
    entry, size, retained := BuildEntry(level, message, source, collected, limits);
    RetainedAreHeld(retained, values, attrs, limits, limits.entryBytes - size);
  }

  predicate Whole(field: Field, limits: Limits) {
    && Utf8Text.Valid(field.key) && |field.key| <= limits.fieldKeyBytes
    && Utf8Text.Valid(field.value) && |field.value| <= limits.fieldValueBytes
  }

  ghost predicate WholeValues(values: seq<Field>, limits: Limits) {
    forall i: nat {:trigger Whole(values[i], limits)} :: i < |values| ==> Whole(values[i], limits)
  }

  ghost predicate Shorter(kept: Field, value: Field) {
    |kept.key| <= |value.key| && |kept.value| <= |value.value|
  }

  lemma KeptIsShorter(kept: Field, value: Field, limits: Limits, left: int)
    requires Normal(limits) && KeptField(kept, value, limits, left) && Whole(value, limits)
    ensures Shorter(kept, value)
  {
    EllipsizedIs(value.key, limits.fieldKeyBytes);
  }

  lemma {:induction false} NoLonger(retained: seq<Field>, values: seq<Field>)
    requires |retained| <= |values|
    requires forall i: nat :: i < |retained| ==> Shorter(retained[i], values[i])
    ensures FieldBytes(retained) <= FieldBytes(values[..|retained|])
    decreases |retained|
  {
    if retained != [] {
      var n := |retained| - 1;
      assert forall i: nat :: i < n ==> Shorter(retained[..n][i], values[i]);
      NoLonger(retained[..n], values);
      assert Shorter(retained[n], values[n]);
      assert values[..n + 1][..n] == values[..n];
    }
  }

  lemma {:induction false} FrontBytes(values: seq<Field>, n: nat)
    requires n <= |values|
    ensures FieldBytes(values[..n]) + (if n < |values| then |values[n].key| + FIELD_OVERHEAD else 0) <= FieldBytes(values)
    decreases |values|
  {
    if n == |values| {
      assert values[..n] == values;
    } else {
      var last := |values| - 1;
      assert values[..last][..n] == values[..n];
      FrontBytes(values[..last], n);
    }
  }

  /** A collected key is not shortened again. */
  lemma KeyIsKept(kept: Field, value: Field, added: seq<Field>, limits: Limits, left: int)
    requires Normal(limits) && KeptField(kept, value, limits, left) && Latest(value, added, limits.fieldKeyBytes)
    ensures kept.key == value.key
  {
    EllipsizedIs(value.key, limits.fieldKeyBytes);
  }

  /** Of collected fields, every one that is retained is in the entry, under its own key. */
  lemma RetainedAreHeld(retained: seq<Field>, values: seq<Field>, attrs: seq<Field>, limits: Limits, left: int)
    requires Normal(limits) && Gathered(values, attrs, limits.fieldKeyBytes) && FromFront(retained, values, limits, left)
    ensures HoldsAll(FieldMap(retained), retained)
    ensures forall i: nat :: i < |retained| ==> retained[i].key == values[i].key
  {
    var added := Shortened(attrs, limits.fieldKeyBytes);
    forall i: nat | i < |retained| ensures retained[i].key == values[i].key {
      assert KeptField(retained[i], values[i], limits, left) && Latest(values[i], added, limits.fieldKeyBytes);
      KeyIsKept(retained[i], values[i], added, limits, left);
    }
    DistinctAreHeld(retained);
  }

  lemma DistinctAreHeld(fields: seq<Field>)
    requires DistinctFields(fields)
    ensures HoldsAll(FieldMap(fields), fields)
  {
    forall i: nat | i < |fields| ensures HasField(FieldMap(fields), fields[i]) {
      FieldMapKeeps(fields, i);
    }
    if fields != [] { FieldMapKeeps(fields, 0); }
  }

  /** Fields that fit with four bytes to spare are all kept whole. */
  lemma WholeFields(retained: seq<Field>, values: seq<Field>, limits: Limits, left: int, spare: int)
    requires Normal(limits) && FromFront(retained, values, limits, left) && |values| <= limits.fields
    requires WholeValues(values, limits)
    requires |retained| == |values| || NoRoom(retained, values, limits, left)
    requires left == spare + FieldBytes(values) - FieldBytes(retained) && spare > 3
    ensures retained == values
  {
    forall i: nat | i < |retained| ensures Shorter(retained[i], values[i]) {
      assert KeptField(retained[i], values[i], limits, left) && Whole(values[i], limits);
      KeptIsShorter(retained[i], values[i], limits, left);
    }
    NoLonger(retained, values);
    FrontBytes(values, |retained|);
    if |retained| < |values| {
      assert Whole(values[|retained|], limits);
      EllipsizedIs(values[|retained|].key, limits.fieldKeyBytes);
    }
    forall i: nat | i < |values| ensures retained[i] == values[i] {
      assert KeptField(retained[i], values[i], limits, left) && Whole(values[i], limits);
      KeptIsWhole(retained[i], values[i], limits, left);
    }
  }

  lemma KeptIsWhole(kept: Field, value: Field, limits: Limits, left: int)
    requires Normal(limits) && KeptField(kept, value, limits, left) && Whole(value, limits) && left > 3
    ensures kept == value
  {
    EllipsizedIs(value.key, limits.fieldKeyBytes);
    EllipsizedIs(value.value, limits.fieldValueBytes);
  }
}
