/** Values shared by the models: optional results and a few facts about strings. */
module Text {

  datatype Option<+T> = None | Some(value: T)

  /** A result that is either a value or an error, as Go's `(T, error)` returns. */
  datatype Result<+T, +E> = Ok(value: T) | Err(error: E)

  function Min(a: nat, b: nat): nat {
    if a < b then a else b
  }

  lemma HasMember<T>(s: seq<T>)
    requires s != []
    ensures exists e :: e in s
  {
    assert s[0] in s;
  }

  /** A string cut at one of its characters. */
  lemma CutAt(s: string, i: nat, c: char)
    requires i < |s| && s[i] == c
    ensures s == s[..i] + ([c] + s[i + 1..]) && s == (s[..i] + [c]) + s[i + 1..]
  {
  }

  lemma Assoc(a: string, b: string, c: string)
    ensures (a + b) + c == a + (b + c)
  {
  }
}
