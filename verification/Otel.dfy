/**
  Parsing, printing and updating OTEL_RESOURCE_ATTRIBUTES (otel/resource_attributes.go,
  otel/update_resource_attributes.go).

  The functions say what the loops compute; the methods are the loops. Strings are sequences of
  code points, so an index is a rune, not a byte; the byte before a rune is a backslash exactly when
  the rune before it is.
*/
module Otel {
  import opened Text
  import opened Ordering

  const ENV_NAME := "OTEL_RESOURCE_ATTRIBUTES"

  type Attributes = map<string, string>

  datatype ParseError = InvalidEntry(pair: string) | EmptyKey

  // ----- Trimming -----

  /** Go's unicode.IsSpace. */
  predicate IsSpace(c: char) {
    || c == ' ' || '\t' <= c <= '\r' || c == '\U{0085}' || c == '\U{00A0}' || c == '\U{1680}'
    || '\U{2000}' <= c <= '\U{200A}' || c == '\U{2028}' || c == '\U{2029}' || c == '\U{202F}'
    || c == '\U{205F}' || c == '\U{3000}'
  }

  function TrimLeft(s: string): string {
    if s != "" && IsSpace(s[0]) then TrimLeft(s[1..]) else s
  }

  function TrimRight(s: string): string {
    if s != "" && IsSpace(s[|s| - 1]) then TrimRight(s[..|s| - 1]) else s
  }

  /** Go's strings.TrimSpace. */
  function TrimSpace(s: string): string {
    TrimRight(TrimLeft(s))
  }

  predicate Trimmed(s: string) {
    s != "" ==> !IsSpace(s[0]) && !IsSpace(s[|s| - 1])
  }

  lemma {:induction false} TrimLeftTrims(s: string)
    ensures TrimLeft(s) != "" ==> !IsSpace(TrimLeft(s)[0])
  {
    if s != "" && IsSpace(s[0]) {
      TrimLeftTrims(s[1..]);
    }
  }

  lemma {:induction false} TrimRightTrims(s: string)
    requires s != "" ==> !IsSpace(s[0])
    ensures Trimmed(TrimRight(s))
  {
    if s != "" && IsSpace(s[|s| - 1]) {
      TrimRightTrims(s[..|s| - 1]);
    }
  }

  lemma TrimTrims(s: string)
    ensures Trimmed(TrimSpace(s)) && (Trimmed(s) ==> TrimSpace(s) == s)
  {
    TrimLeftTrims(s);
    TrimRightTrims(TrimLeft(s));
  }

  // ----- Escaping -----

  predicate IsSpecial(c: char) {
    c == '\\' || c == ',' || c == '='
  }

  function Escape(s: string): string {
    if s == "" then "" else EscapeChar(s[0]) + Escape(s[1..])
  }

  function EscapeChar(c: char): string {
    if IsSpecial(c) then ['\\', c] else [c]
  }

  function Unescape(s: string, escaped: bool): string {
    if s == "" then ""
    else if escaped || s[0] != '\\' then [s[0]] + Unescape(s[1..], false)
    else Unescape(s[1..], true)
  }

  method EscapeOtel(s: string) returns (b: string)
    ensures b == Escape(s)
  {
    b := "";
    for i := 0 to |s|
      invariant b + Escape(s[i..]) == Escape(s)
    {
      EscapeStep(s, i, b);
      if IsSpecial(s[i]) {
        b := b + ['\\'];
      }
      b := b + [s[i]];
    }
    assert s[|s|..] == "";
  }

  lemma EscapeStep(s: string, i: nat, b: string)
    requires i < |s|
    ensures b + Escape(s[i..]) == (if IsSpecial(s[i]) then b + ['\\'] else b) + [s[i]] + Escape(s[i + 1..])
  {
  }

  lemma UnescapeStep(s: string, i: nat, escaped: bool, current: string)
    requires i < |s|
    ensures current + Unescape(s[i..], escaped)
            == if escaped || s[i] != '\\' then (current + [s[i]]) + Unescape(s[i + 1..], false)
               else current + Unescape(s[i + 1..], true)
  {
    assert s[i..][1..] == s[i + 1..];
  }

  method UnescapeOtel(input: string) returns (current: string)
    ensures current == Unescape(input, false)
  {
    current := "";
    var escaped := false;
    for i := 0 to |input|
      invariant current + Unescape(input[i..], escaped) == Unescape(input, false)
    {
      UnescapeStep(input, i, escaped, current);
      if escaped {
        current := current + [input[i]];
        escaped := false;
      } else if input[i] == '\\' {
        escaped := true;
      } else {
        current := current + [input[i]];
      }
    }
    assert input[|input|..] == "";
  }

  // ----- Splitting -----

  /** The rest of the input cut at commas that do not follow a backslash, after `current`. */
  function Parts(s: string, afterBackslash: bool, current: string): seq<string> {
    if s == "" then if current == "" then [] else [current]
    else if s[0] == ',' && !afterBackslash then [current] + Parts(s[1..], false, "")
    else Parts(s[1..], s[0] == '\\', current + [s[0]])
  }

  method SplitPairs(input: string) returns (parts: seq<string>)
    ensures parts == Parts(input, false, "")
  {
    parts := [];
    var current := "";
    for i := 0 to |input|
      invariant parts + Parts(input[i..], i > 0 && input[i - 1] == '\\', current) == Parts(input, false, "")
    {
      assert input[i..][1..] == input[i + 1..];
      var isEscaped := i > 0 && input[i - 1] == '\\';
      if input[i] == ',' && !isEscaped {
        parts := parts + [current];
        current := "";
      } else {
        current := current + [input[i]];
      }
    }
    assert input[|input|..] == "";
    if |current| > 0 {
      parts := parts + [current];
    }
  }

  /** The key and value around the first unescaped `=`, after the key read so far. */
  function KeyValue(s: string, escaped: bool, key: string): Option<(string, string)> {
    if s == "" then None
    else if escaped then KeyValue(s[1..], false, key + [s[0]])
    else if s[0] == '\\' then KeyValue(s[1..], true, key)
    else if s[0] == '=' then Some((key, Unescape(s[1..], false)))
    else KeyValue(s[1..], false, key + [s[0]])
  }

  method SplitPair(input: string) returns (pair: Option<(string, string)>)
    ensures pair == KeyValue(input, false, "")
  {
    var key, escaped := "", false;
    for i := 0 to |input|
      invariant KeyValue(input[i..], escaped, key) == KeyValue(input, false, "")
    {
      assert input[i..][1..] == input[i + 1..];
      if escaped {
        key := key + [input[i]];
        escaped := false;
      } else if input[i] == '\\' {
        escaped := true;
      } else if input[i] == '=' {
        var value := UnescapeOtel(input[i + 1..]);
        return Some((key, value));
      } else {
        key := key + [input[i]];
      }
    }
    return None;
  }

  // ----- Parsing -----

  /** What one part adds to the attributes read so far. */
  function AddPart(part: string, attrs: Attributes): Result<Attributes, ParseError> {
    var pair := TrimSpace(part);
    if pair == "" then Ok(attrs) else
    match KeyValue(pair, false, "")
    case None => Err(InvalidEntry(pair))
    case Some((key, value)) =>
      if TrimSpace(key) == "" then Err(EmptyKey) else Ok(attrs[TrimSpace(key) := TrimSpace(value)])
  }

  function AddParts(parts: seq<string>, attrs: Attributes): Result<Attributes, ParseError> {
    if parts == [] then Ok(attrs) else
    match AddPart(parts[0], attrs)
    case Err(error) => Err(error)
    case Ok(more) => AddParts(parts[1..], more)
  }

  function Parse(input: string): Result<Attributes, ParseError> {
    if TrimSpace(input) == "" then Ok(map[]) else AddParts(Parts(input, false, ""), map[])
  }

  method ParseResourceAttributes(input: string) returns (result: Result<Attributes, ParseError>)
    ensures result == Parse(input)
  {
    var attrs: Attributes := map[];
    if TrimSpace(input) == "" {
      return Ok(attrs);
    }
    var pairs := SplitPairs(input);
    for i := 0 to |pairs|
      invariant AddParts(pairs[i..], attrs) == AddParts(pairs, map[])
    {
      assert pairs[i..][1..] == pairs[i + 1..];
      var pair := TrimSpace(pairs[i]);
      if pair == "" {
        continue;
      }
      var parsed := SplitPair(pair);
      if parsed == None {
        return Err(InvalidEntry(pair));
      }
      var key, value := TrimSpace(parsed.value.0), TrimSpace(parsed.value.1);
      if key == "" {
        return Err(EmptyKey);
      }
      attrs := attrs[key := value];
    }
    return Ok(attrs);
  }

  // ----- Printing -----

  function Entry(attrs: Attributes, key: string): string
    requires key in attrs
  {
    Escape(key) + "=" + Escape(attrs[key])
  }

  /** The entries of these keys with commas between them. */
  function PrintKeys(attrs: Attributes, keys: seq<string>): string
    requires forall k <- keys :: k in attrs
  {
    if keys == [] then ""
    else if |keys| == 1 then Entry(attrs, keys[0])
    else Entry(attrs, keys[0]) + "," + PrintKeys(attrs, keys[1..])
  }

  function PrintableKeys(attrs: Attributes): set<string> {
    set k | k in attrs && TrimSpace(k) != ""
  }

  ghost function Print(attrs: Attributes): string {
    PrintKeys(attrs, SortedList(PrintableKeys(attrs)))
  }

  method PrintAttributes(attrs: Attributes) returns (text: string)
    ensures text == Print(attrs)
  {
    if |attrs| == 0 {
      assert PrintableKeys(attrs) == {};
      return "";
    }
    var keys: seq<string> := [];
    var todo := attrs.Keys;
    while todo != {}
      invariant todo <= attrs.Keys && (forall i, j | 0 <= i < j < |keys| :: keys[i] != keys[j])
      invariant forall y :: y in keys <==> y in PrintableKeys(attrs) && y !in todo
      decreases todo
    {
      var k :| k in todo;
      todo := todo - {k};
      if TrimSpace(k) == "" {
        continue;
      }
      assert k in PrintableKeys(attrs);
      keys := keys + [k];
    }
    SortOfListing(keys, PrintableKeys(attrs));
    keys := Sort(keys);
    text := WriteEntries(attrs, keys);
  }

  method WriteEntries(attrs: Attributes, keys: seq<string>) returns (b: string)
    requires forall k <- keys :: k in attrs
    ensures b == PrintKeys(attrs, keys)
  {
    hide Escape, PrintKeys, Remaining;
    b := "";
    RemainingEnds(attrs, keys);
    for i := 0 to |keys|
      invariant b + Remaining(attrs, keys, i) == PrintKeys(attrs, keys)
    {
      ghost var before := b;
      if i > 0 {
        b := b + ",";
      }
      var key := EscapeOtel(keys[i]);
      var value := EscapeOtel(attrs[keys[i]]);
      b := b + (key + "=" + value);
      RemainingStep(attrs, keys, i, before);
    }
  }

  /** What is left to print before key `i`. */
  function Remaining(attrs: Attributes, keys: seq<string>, i: nat): string
    requires i <= |keys| && forall k <- keys :: k in attrs
  {
    if i == |keys| then "" else Comma(i) + PrintKeys(attrs, keys[i..])
  }

  function Comma(i: nat): string {
    if i > 0 then "," else ""
  }

  lemma RemainingEnds(attrs: Attributes, keys: seq<string>)
    requires forall k <- keys :: k in attrs
    ensures "" + Remaining(attrs, keys, 0) == PrintKeys(attrs, keys) && Remaining(attrs, keys, |keys|) == ""
  {
  }

  lemma RemainingHead(attrs: Attributes, keys: seq<string>, i: nat)
    requires i < |keys| && forall k <- keys :: k in attrs
    ensures Remaining(attrs, keys, i) == Comma(i) + (Entry(attrs, keys[i]) + Remaining(attrs, keys, i + 1))
  {
    hide Entry;
    assert keys[i..][1..] == keys[i + 1..];
  }

  lemma RemainingStep(attrs: Attributes, keys: seq<string>, i: nat, b: string)
    requires i < |keys| && forall k <- keys :: k in attrs
    ensures b + Remaining(attrs, keys, i)
            == (if i > 0 then b + "," else b) + Entry(attrs, keys[i]) + Remaining(attrs, keys, i + 1)
  {
    hide Entry, Remaining, PrintKeys;
    RemainingHead(attrs, keys, i);
    var entry, rest := Entry(attrs, keys[i]), Remaining(attrs, keys, i + 1);
    Assoc(b, Comma(i), entry + rest);
    Assoc(b + Comma(i), entry, rest);
    assert b + "" == b;
  }
}
