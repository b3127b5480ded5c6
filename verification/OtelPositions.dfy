/**
  What parsing OTEL_RESOURCE_ATTRIBUTES does with any text, by positions in it
  (otel/resource_attributes.go:13-43, 95-157, otel/update_resource_attributes.go:3-18).
*/
module OtelPositions {
  import opened Text
  import opened Otel
  import opened OtelRoundTrip

  // ----- Positions -----

  /** A comma that does not follow a backslash. */
  predicate IsCut(s: string, i: nat) {
    i < |s| && s[i] == ',' && !(i > 0 && s[i - 1] == '\\')
  }

  predicate StartsAfterCut(s: string, a: nat) {
    a == 0 || IsCut(s, a - 1)
  }

  /** What lies between two neighbouring cuts, or between a cut and an end. */
  predicate Stretch(s: string, from: nat, end: nat) {
    && from <= end <= |s| && StartsAfterCut(s, from) && (end == |s| || IsCut(s, end))
    && forall i: nat | from <= i < end :: !IsCut(s, i)
  }

  /** The character before is a backslash that is not escaped itself. */
  predicate Escaped(s: string, i: nat)
    requires i <= |s|
  {
    i > 0 && s[i - 1] == '\\' && !Escaped(s, i - 1)
  }

  predicate IsEquals(s: string, i: nat) {
    i < |s| && s[i] == '=' && !Escaped(s, i)
  }

  /** The first unescaped equals sign. */
  predicate Separates(s: string, i: nat) {
    IsEquals(s, i) && forall j: nat | j < i :: !IsEquals(s, j)
  }

  ghost predicate HasEquals(s: string) {
    exists i: nat :: Separates(s, i)
  }

  ghost function Separator(s: string): (i: nat)
    requires HasEquals(s)
    ensures Separates(s, i)
  {
    var i: nat :| Separates(s, i);
    assert forall j: nat | Separates(s, j) :: i == j by { OneSeparator(s, i); }
    i
  }

  lemma OneSeparator(s: string, i: nat)
    requires Separates(s, i)
    ensures forall j: nat | Separates(s, j) :: i == j
  {
    forall j: nat | Separates(s, j)
      ensures i == j
    {
      assert !(j < i) && !(i < j);
    }
  }

  ghost function RawKey(p: string): string
    requires HasEquals(p)
  {
    TrimSpace(Unescape(p[..Separator(p)], false))
  }

  ghost function RawValue(p: string): string
    requires HasEquals(p)
  {
    TrimSpace(Unescape(p[Separator(p) + 1..], false))
  }

  ghost predicate Fails(p: string) {
    p != "" && (!HasEquals(p) || RawKey(p) == "")
  }

  ghost predicate Gives(p: string, k: string) {
    p != "" && HasEquals(p) && RawKey(p) == k && k != ""
  }

  // ----- The first equals sign -----

  lemma EscapedTail(s: string, i: nat, escaped: bool)
    requires s != "" && i < |s|
    ensures EscapedFrom(s, i + 1, escaped) == EscapedFrom(s[1..], i, !escaped && s[0] == '\\')
    decreases i
  {
    if i > 0 {
      EscapedTail(s, i - 1, escaped);
    }
  }

  /** Escaped, if the text before left an escape open or not. */
  predicate EscapedFrom(s: string, i: nat, escaped: bool)
    requires i <= |s|
  {
    if i == 0 then escaped else s[i - 1] == '\\' && !EscapedFrom(s, i - 1, escaped)
  }

  lemma {:induction false} EscapedIsFrom(s: string, i: nat)
    requires i <= |s|
    ensures Escaped(s, i) == EscapedFrom(s, i, false)
  {
    if i > 0 {
      EscapedIsFrom(s, i - 1);
    }
  }

  predicate EqualsFrom(s: string, i: nat, escaped: bool) {
    i < |s| && s[i] == '=' && !EscapedFrom(s, i, escaped)
  }

  predicate SeparatesFrom(s: string, i: nat, escaped: bool) {
    EqualsFrom(s, i, escaped) && forall j: nat | j < i :: !EqualsFrom(s, j, escaped)
  }

  lemma EqualsTail(s: string, i: nat, escaped: bool)
    requires s != ""
    ensures EqualsFrom(s, i + 1, escaped) == EqualsFrom(s[1..], i, !escaped && s[0] == '\\')
  {
    if i < |s| {
      EscapedTail(s, i, escaped);
    }
  }

  lemma SeparatesTail(s: string, i: nat, escaped: bool)
    requires s != "" && !EqualsFrom(s, 0, escaped)
    ensures SeparatesFrom(s, i + 1, escaped) == SeparatesFrom(s[1..], i, !escaped && s[0] == '\\')
  {
    var next := !escaped && s[0] == '\\';
    forall j: nat
      ensures EqualsFrom(s, j + 1, escaped) == EqualsFrom(s[1..], j, next)
    {
      EqualsTail(s, j, escaped);
    }
    hide EqualsFrom;
    if SeparatesFrom(s, i + 1, escaped) {
      forall j: nat | j < i
        ensures !EqualsFrom(s[1..], j, next)
      {
        assert !EqualsFrom(s, j + 1, escaped);
      }
    }
    if SeparatesFrom(s[1..], i, next) {
      forall j: nat | j < i + 1
        ensures !EqualsFrom(s, j, escaped)
      {
        if j > 0 {
          assert !EqualsFrom(s[1..], j - 1, next);
        }
      }
    }
  }

  lemma {:induction false} KeyValueFrom(s: string, escaped: bool, key: string)
    ensures KeyValue(s, escaped, key) == None <==> forall i: nat :: !SeparatesFrom(s, i, escaped)
    ensures forall i: nat | SeparatesFrom(s, i, escaped) ::
              KeyValue(s, escaped, key) == Some((key + Unescape(s[..i], escaped), Unescape(s[i + 1..], false)))
    decreases |s|
  {
    hide SeparatesFrom;
    if s == "" {
      assert forall i: nat :: !SeparatesFrom(s, i, escaped) by { NoneInEmpty(escaped); }
    } else if EqualsFrom(s, 0, escaped) {
      FirstSeparates(s, escaped);
      assert SeparatesFrom(s, 0, escaped);
      assert s[..0] == "" && key + "" == key;
    } else {
      var next := !escaped && s[0] == '\\';
      var more := if next then key else key + [s[0]];
      KeyValueFrom(s[1..], next, more);
      assert KeyValue(s, escaped, key) == KeyValue(s[1..], next, more);
      forall i: nat
        ensures SeparatesFrom(s, i, escaped) ==> i > 0
        ensures i > 0 ==> SeparatesFrom(s, i, escaped) == SeparatesFrom(s[1..], i - 1, next)
      {
        LaterSeparates(s, i, escaped);
      }
      forall i: nat
        ensures SeparatesFrom(s[1..], i, next) == SeparatesFrom(s, i + 1, escaped)
      {
        LaterSeparates(s, i + 1, escaped);
      }
      hide KeyValue, EqualsFrom;
      forall i: nat | SeparatesFrom(s, i, escaped)
        ensures i < |s|
      {
        SeparatesInside(s, i, escaped);
      }
      forall i: nat | SeparatesFrom(s, i, escaped)
        ensures KeyValue(s, escaped, key) == Some((key + Unescape(s[..i], escaped), Unescape(s[i + 1..], false)))
      {
        SeparatesInside(s[1..], i - 1, next);
        KeyGrows(s, i, escaped, key, more);
      }
    }
  }

  lemma NoneInEmpty(escaped: bool)
    ensures forall i: nat :: !SeparatesFrom("", i, escaped)
  {
  }

  lemma FirstSeparates(s: string, escaped: bool)
    requires EqualsFrom(s, 0, escaped)
    ensures forall i: nat :: SeparatesFrom(s, i, escaped) <==> i == 0
  {
    hide EqualsFrom;
  }

  lemma LaterSeparates(s: string, i: nat, escaped: bool)
    requires s != "" && !EqualsFrom(s, 0, escaped)
    ensures SeparatesFrom(s, i, escaped) ==> i > 0
    ensures i > 0 ==> SeparatesFrom(s, i, escaped) == SeparatesFrom(s[1..], i - 1, !escaped && s[0] == '\\')
  {
    if i > 0 {
      SeparatesTail(s, i - 1, escaped);
    }
    hide EqualsFrom;
  }

  lemma SeparatesInside(s: string, i: nat, escaped: bool)
    requires SeparatesFrom(s, i, escaped)
    ensures i < |s|
  {
  }

  lemma KeyGrows(s: string, i: nat, escaped: bool, key: string, more: string)
    requires 0 < i < |s|
    requires more == if !escaped && s[0] == '\\' then key else key + [s[0]]
    ensures more + Unescape(s[1..][..i - 1], !escaped && s[0] == '\\') == key + Unescape(s[..i], escaped)
    ensures s[1..][i..] == s[i + 1..]
  {
    assert s[..i][1..] == s[1..][..i - 1];
    var rest := Unescape(s[1..][..i - 1], !escaped && s[0] == '\\');
    assert Unescape(s[..i], escaped) == if !escaped && s[0] == '\\' then rest else [s[0]] + rest;
    hide Unescape;
    Assoc(key, [s[0]], rest);
  }

  lemma SeparatesIsFrom(p: string, i: nat)
    ensures Separates(p, i) <==> SeparatesFrom(p, i, false)
  {
    forall j: nat
      ensures IsEquals(p, j) == EqualsFrom(p, j, false)
    {
      if j < |p| {
        EscapedIsFrom(p, j);
      }
    }
    hide IsEquals, EqualsFrom;
  }

  /** The pair is cut at the first unescaped equals sign; without one there is none. */
  lemma PairAtSeparator(p: string)
    ensures KeyValue(p, false, "") ==
            if HasEquals(p) then
              Some((Unescape(p[..Separator(p)], false), Unescape(p[Separator(p) + 1..], false)))
            else None
  {
    KeyValueFrom(p, false, "");
    forall i: nat
      ensures Separates(p, i) <==> SeparatesFrom(p, i, false)
    {
      SeparatesIsFrom(p, i);
    }
    hide KeyValue, SeparatesFrom, Separates;
    assert forall t: string :: "" + t == t;
  }

  // ----- What one stretch adds -----

  ghost function ErrorOf(p: string): ParseError {
    if HasEquals(p) then EmptyKey else InvalidEntry(p)
  }

  lemma PartAdds(part: string, attrs: Attributes)
    ensures var p := TrimSpace(part);
            AddPart(part, attrs) ==
              if Fails(p) then Err(ErrorOf(p)) else if p == "" then Ok(attrs) else Ok(attrs[RawKey(p) := RawValue(p)])
  {
    PairAtSeparator(TrimSpace(part));
    hide TrimSpace, KeyValue, HasEquals, Separator, Unescape;
  }

  ghost predicate FailsFirst(parts: seq<string>, i: nat) {
    i < |parts| && Fails(TrimSpace(parts[i])) && forall j: nat | j < i :: !Fails(TrimSpace(parts[j]))
  }

  lemma {:induction false} PartsFail(parts: seq<string>, attrs: Attributes)
    ensures AddParts(parts, attrs).Err? <==> exists i: nat :: i < |parts| && Fails(TrimSpace(parts[i]))
    ensures forall i: nat | FailsFirst(parts, i) :: AddParts(parts, attrs) == Err(ErrorOf(TrimSpace(parts[i])))
    decreases |parts|
  {
    hide TrimSpace, Fails, AddPart, ErrorOf;
    if parts != [] {
      PartAdds(parts[0], attrs);
      if Fails(TrimSpace(parts[0])) {
        assert forall i: nat | FailsFirst(parts, i) :: i == 0;
      } else {
        var rest := parts[1..];
        PartsFail(rest, AddPart(parts[0], attrs).value);
        assert forall i: nat | i < |rest| :: rest[i] == parts[i + 1];
        forall i: nat | FailsFirst(parts, i)
          ensures i > 0 && FailsFirst(rest, i - 1)
        {
          assert rest[i - 1] == parts[i];
          forall j: nat | j < i - 1
            ensures !Fails(TrimSpace(rest[j]))
          {
            assert rest[j] == parts[j + 1];
          }
        }
        if i: nat :| i < |parts| && Fails(TrimSpace(parts[i])) {
          assert rest[i - 1] == parts[i];
        }
      }
    }
  }

  ghost predicate GivesLast(parts: seq<string>, i: nat, k: string) {
    i < |parts| && Gives(TrimSpace(parts[i]), k) && forall j: nat | i < j < |parts| :: !Gives(TrimSpace(parts[j]), k)
  }

  ghost predicate SomeGives(parts: seq<string>, k: string) {
    exists i: nat :: i < |parts| && Gives(TrimSpace(parts[i]), k)
  }

  lemma GivesRest(parts: seq<string>, k: string)
    requires parts != []
    ensures SomeGives(parts, k) <==> Gives(TrimSpace(parts[0]), k) || SomeGives(parts[1..], k)
    ensures forall i: nat | GivesLast(parts, i, k) && i > 0 :: GivesLast(parts[1..], i - 1, k)
    ensures GivesLast(parts, 0, k) ==> !SomeGives(parts[1..], k)
  {
    var rest := parts[1..];
    hide TrimSpace, Gives;
    assert forall i: nat | i < |rest| :: rest[i] == parts[i + 1];
    if i: nat :| i < |parts| && Gives(TrimSpace(parts[i]), k) {
      assert i > 0 ==> rest[i - 1] == parts[i];
    }
  }

  lemma {:induction false} PartsGive(parts: seq<string>, attrs: Attributes, k: string)
    requires AddParts(parts, attrs).Ok?
    ensures var r := AddParts(parts, attrs).value;
            && (k in r <==> k in attrs || SomeGives(parts, k))
            && (!SomeGives(parts, k) && k in attrs ==> r[k] == attrs[k])
            && forall i: nat | GivesLast(parts, i, k) :: k in r && r[k] == RawValue(TrimSpace(parts[i]))
    decreases |parts|
  {
    if parts != [] {
      PartAdds(parts[0], attrs);
      GivesRest(parts, k);
      hide TrimSpace, AddPart, ErrorOf, HasEquals, Unescape, Separator, SomeGives, RawKey, RawValue;
      PartsGive(parts[1..], AddPart(parts[0], attrs).value, k);
      forall i: nat | GivesLast(parts, i, k)
        ensures i > 0 ==> parts[1..][i - 1] == parts[i]
      {
      }
    }
  }
}
