/** Structured field keys of the application log: groups joined by dots, with dots and
    backslashes inside a name escaped. */
module LogKeys {
  import opened Basics

  /** `strings.ReplaceAll` for a one-character pattern. */
  function ReplaceAll(s: string, c: char, with: string): string {
    if s == "" then "" else (if s[0] == c then with else [s[0]]) + ReplaceAll(s[1..], c, with)
  }

  /** A name with every backslash and dot escaped. */
  function Escape(part: string): string {
    if part == "" then ""
    else (if part[0] == '\\' || part[0] == '.' then ['\\', part[0]] else [part[0]]) + Escape(part[1..])
  }

  function Flatten(parts: seq<string>): string {
    if parts == [] then ""
    else if |parts| == 1 then Escape(parts[0])
    else Escape(parts[0]) + "." + Flatten(parts[1..])
  }

  lemma {:induction false} ReplaceConcat(a: string, b: string, c: char, with: string)
    ensures ReplaceAll(a + b, c, with) == ReplaceAll(a, c, with) + ReplaceAll(b, c, with)
  {
    if a == "" {
      assert a + b == b;
    } else {
      ReplaceConcat(a[1..], b, c, with);
      assert (a + b)[0] == a[0] && (a + b)[1..] == a[1..] + b;
      Associative(if a[0] == c then with else [a[0]], ReplaceAll(a[1..], c, with), ReplaceAll(b, c, with));
    }
  }

  /** Escaping backslashes first and dots second escapes every character once. */
  lemma {:induction false} TwoPassesEscape(part: string)
    ensures ReplaceAll(ReplaceAll(part, '\\', "\\\\"), '.', "\\.") == Escape(part)
  {
    if part != "" {
      TwoPassesEscape(part[1..]);
      var head := if part[0] == '\\' then "\\\\" else [part[0]];
      ReplaceConcat(head, ReplaceAll(part[1..], '\\', "\\\\"), '.', "\\.");
      if part[0] == '\\' {
        assert head[1..] == "\\" && head[1..][1..] == "";
      } else {
        assert head[1..] == "";
      }
    }
  }

  /** `flattenKey`. */
  method FlattenKey(parts: seq<string>) returns (key: string)
    ensures key == Flatten(parts)
  {
    var escaped: seq<string> := [];
    for index := 0 to |parts|
      invariant |escaped| == index && forall k :: 0 <= k < index ==> escaped[k] == Escape(parts[k])
    {
      var part := ReplaceAll(parts[index], '\\', "\\\\");
      part := ReplaceAll(part, '.', "\\.");
      TwoPassesEscape(parts[index]);
      escaped := escaped + [part];
    }
    key := Join(escaped);
    JoinIsFlatten(parts, escaped);
  }

  /** `strings.Join` with a dot. */
  function Join(parts: seq<string>): string {
    if parts == [] then "" else if |parts| == 1 then parts[0] else parts[0] + "." + Join(parts[1..])
  }

  lemma {:induction false} JoinIsFlatten(parts: seq<string>, escaped: seq<string>)
    requires |escaped| == |parts| && forall k :: 0 <= k < |parts| ==> escaped[k] == Escape(parts[k])
    ensures Join(escaped) == Flatten(parts)
  {
    if |parts| > 1 { JoinIsFlatten(parts[1..], escaped[1..]); }
  }

  /** What the scan of `splitFlattenedKey` yields from here on. */
  function SplitFrom(key: string, current: string, escaped: bool): (segments: seq<string>)
    ensures |segments| >= 1
  {
    if key == "" then [if escaped then current + "\\" else current]
    else if escaped then SplitFrom(key[1..], current + [key[0]], false)
    else if key[0] == '\\' then SplitFrom(key[1..], current, true)
    else if key[0] == '.' then [current] + SplitFrom(key[1..], "", false)
    else SplitFrom(key[1..], current + [key[0]], false)
  }

  /** `splitFlattenedKey`. */
  method SplitFlattenedKey(key: string) returns (segments: seq<string>)
    ensures segments == SplitFrom(key, "", false)
  {
    segments := [];
    var current, escaped := "", false;
    for i := 0 to |key|
      invariant segments + SplitFrom(key[i..], current, escaped) == SplitFrom(key, "", false)
    {
      var character := key[i];
      assert key[i..][1..] == key[i + 1..];
      if escaped {
        current, escaped := current + [character], false;
      } else if character == '\\' {
        escaped := true;
      } else if character == '.' {
        ghost var rest := SplitFrom(key[i + 1..], "", false);
        assert segments + ([current] + rest) == (segments + [current]) + rest;
        segments := segments + [current];
        current := "";
      } else {
        current := current + [character];
      }
    }
    if escaped {
      current := current + "\\";
    }
    segments := segments + [current];
  }

  lemma {:induction false} SplitEscaped(part: string, rest: string, current: string)
    ensures SplitFrom(Escape(part) + rest, current, false) == SplitFrom(rest, current + part, false)
  {
    if part == "" {
      assert Escape(part) + rest == rest && current + part == current;
    } else {
      var tail := Escape(part[1..]) + rest;
      SplitEscaped(part[1..], rest, current + [part[0]]);
      assert current + [part[0]] + part[1..] == current + part;
      if part[0] == '\\' || part[0] == '.' {
        assert Escape(part) + rest == ['\\', part[0]] + tail;
        assert (['\\', part[0]] + tail)[1..] == [part[0]] + tail && ([part[0]] + tail)[1..] == tail;
      } else {
        assert Escape(part) + rest == [part[0]] + tail && ([part[0]] + tail)[1..] == tail;
      }
    }
  }

  lemma SplitAtDot(part: string, rest: string)
    ensures SplitFrom(Escape(part) + "." + rest, "", false) == [part] + SplitFrom(rest, "", false)
  {
    SplitEscaped(part, "." + rest, "");
    assert Escape(part) + "." + rest == Escape(part) + ("." + rest);
    assert ("." + rest)[1..] == rest && "" + part == part;
  }

  lemma SplitLast(part: string)
    ensures SplitFrom(Escape(part), "", false) == [part]
  {
    SplitEscaped(part, "", "");
    assert Escape(part) + "" == Escape(part) && "" + part == part;
  }

  /** Splitting undoes flattening, whatever characters the names contain. */
  lemma {:induction false} SplitOfFlatten(parts: seq<string>)
    requires parts != []
    ensures SplitFrom(Flatten(parts), "", false) == parts
  {
    if |parts| == 1 {
      SplitLast(parts[0]);
      assert parts == [parts[0]];
    } else {
      SplitAtDot(parts[0], Flatten(parts[1..]));
      SplitOfFlatten(parts[1..]);
      assert [parts[0]] + parts[1..] == parts;
    }
  }

  /** Different group paths never share a key. */
  lemma FlattenInjective(a: seq<string>, b: seq<string>)
    requires a != [] && b != [] && Flatten(a) == Flatten(b)
    ensures a == b
  {
    SplitOfFlatten(a);
    SplitOfFlatten(b);
  }

  /** `FieldKeyHasSuffix`: true exactly for the keys whose last name is this one. */
  method FieldKeyHasSuffix(key: string, name: string) returns (has: bool)
    ensures var segments := SplitFrom(key, "", false); has <==> segments[|segments| - 1] == name
    ensures forall parts: seq<string> :: parts != [] && key == Flatten(parts) ==> (has <==> parts[|parts| - 1] == name)
  {
    var segments := SplitFlattenedKey(key);
    has := |segments| > 0 && segments[|segments| - 1] == name;
    forall parts: seq<string> | parts != [] && key == Flatten(parts) ensures has <==> parts[|parts| - 1] == name {
      SplitOfFlatten(parts);
    }
  }
}
