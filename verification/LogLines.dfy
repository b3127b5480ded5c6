/** The lines of a log stream, and reading them (`writeLine` of k8s/logs/container_streamer.go, over bufio). */
module LogLines {
  import opened Text

  // ----- Lines -----

  /** Where the first newline is, or the length if there is none. */
  function FirstNewline(s: string): (n: nat)
    ensures n <= |s| && '\n' !in s[..n]
    ensures n < |s| ==> s[n] == '\n'
  {
    if s == "" || s[0] == '\n' then 0
    else
      var n := 1 + FirstNewline(s[1..]);
      assert s[..n] == [s[0]] + s[1..][..n - 1];
      n
  }

  /** The lines of a text; a tail without a newline is a line, an empty tail is not. */
  function Lines(s: string): seq<string>
    decreases |s|
  {
    if s == "" then []
    else
      var n := FirstNewline(s);
      if n == |s| then [s] else [s[..n]] + Lines(s[n + 1..])
  }

  /** Lines written out again, each with its newline. */
  function Terminated(lines: seq<string>): string {
    if lines == [] then "" else lines[0] + "\n" + Terminated(lines[1..])
  }

  predicate Ended(s: string) {
    s == "" || s[|s| - 1] == '\n'
  }

  /** The lines contain no newline and spell out the bytes of the text, with a newline after an unterminated tail. */
  lemma {:induction false} LinesSpell(s: string)
    ensures forall line <- Lines(s) :: '\n' !in line
    ensures Terminated(Lines(s)) == s + if Ended(s) then "" else "\n"
    decreases |s|
  {
    var n := FirstNewline(s);
    if s == "" {
    } else if n == |s| {
      assert Terminated(Lines(s)) == s + "\n" + Terminated([]);
    } else {
      LinesSpell(s[n + 1..]);
      assert Lines(s) == [s[..n]] + Lines(s[n + 1..]);
      SpellStep(s, n, Lines(s[n + 1..]));
    }
  }

  lemma SpellStep(s: string, n: nat, rest: seq<string>)
    requires n < |s| && s[n] == '\n'
    requires Terminated(rest) == s[n + 1..] + if Ended(s[n + 1..]) then "" else "\n"
    ensures Terminated([s[..n]] + rest) == s + if Ended(s) then "" else "\n"
  {
  }

  /** The other way round: lines and a tail without newlines are what is read back. */
  lemma {:induction false} LinesOfTerminated(lines: seq<string>, tail: string)
    requires (forall line <- lines :: '\n' !in line) && '\n' !in tail
    ensures Lines(Terminated(lines) + tail) == lines + if tail == "" then [] else [tail]
  {
    if lines == [] {
      assert Terminated(lines) + tail == tail;
      if tail != "" {
        NoNewline(tail);
      }
    } else {
      var rest := Terminated(lines[1..]) + tail;
      LinesOfTerminated(lines[1..], tail);
      assert Terminated(lines) + tail == lines[0] + "\n" + rest;
      FirstOf(lines[0], rest);
      assert lines == [lines[0]] + lines[1..];
    }
  }

  lemma NoNewline(s: string)
    requires '\n' !in s
    ensures FirstNewline(s) == |s|
  {
    if FirstNewline(s) < |s| {
      assert s[FirstNewline(s)] == '\n';
    }
  }

  lemma {:induction false} FirstOf(line: string, rest: string)
    requires '\n' !in line
    ensures var s := line + "\n" + rest; FirstNewline(s) == |line| && s[..|line|] == line && s[|line| + 1..] == rest
  {
    var s := line + "\n" + rest;
    var n := FirstNewline(s);
    assert s[|line|] == '\n';
    assert forall i | 0 <= i < |line| :: s[i] == line[i];
  }

  /** What reading through the first newline takes from the lines. */
  lemma FirstLine(s: string)
    ensures var n := FirstNewline(s);
            if n == |s| then Lines(s) == if s == "" then [] else [s]
            else |Lines(s)| > 0 && Lines(s)[..1] == [s[..n + 1][..n]] && Lines(s)[1..] == Lines(s[n + 1..])
  {
    var n := FirstNewline(s);
    if n < |s| {
      assert s[..n + 1][..n] == s[..n];
    }
  }

  lemma {:induction false} PrefixSpells(lines: seq<string>, n: nat)
    requires n <= |lines|
    ensures Terminated(lines[..n]) <= Terminated(lines)
  {
    if n > 0 {
      PrefixSpells(lines[1..], n - 1);
      assert lines[..n][1..] == lines[1..][..n - 1];
    }
  }

  lemma LinesCons(line: string, rest: string)
    requires '\n' !in line
    ensures Lines(line + "\n" + rest) == [line] + Lines(rest)
  {
    FirstOf(line, rest);
    hide FirstNewline;
  }

  lemma {:induction false} NewlineAt(s: string, i: nat)
    requires i < |s| && s[i] == '\n'
    ensures FirstNewline(s) <= i
  {
    if s[0] != '\n' {
      NewlineAt(s[1..], i - 1);
    }
  }

  /** Text that ends in a newline starts with a whole line. */
  lemma WholeLine(s: string)
    requires s != "" && Ended(s)
    ensures var n := FirstNewline(s);
            n < |s| && s == s[..n] + "\n" + s[n + 1..] && '\n' !in s[..n] && Ended(s[n + 1..])
  {
    NewlineAt(s, |s| - 1);
    var n := FirstNewline(s);
    hide FirstNewline;
    CutLine(s, n);
  }

  lemma CutLine(s: string, n: nat)
    requires n < |s| && Ended(s) && s[n] == '\n'
    ensures s == s[..n] + "\n" + s[n + 1..] && Ended(s[n + 1..])
  {
    var rest := s[n + 1..];
    assert rest != "" ==> rest[|rest| - 1] == s[|s| - 1];
    hide *;
    CutAt(s, n, '\n');
  }

  /** After whole lines, the lines that follow are read as if they stood alone. */
  lemma {:induction false} LinesJoin(a: string, b: string)
    requires Ended(a)
    ensures Lines(a + b) == Lines(a) + Lines(b)
    decreases |a|
  {
    if a == "" {
      assert a + b == b;
    } else {
      WholeLine(a);
      var n := FirstNewline(a);
      var line, rest := a[..n], a[n + 1..];
      hide FirstNewline, Lines, Ended;
      LinesJoin(rest, b);
      JoinCons(line, rest, b);
    }
  }

  lemma JoinCons(line: string, rest: string, b: string)
    requires '\n' !in line && Lines(rest + b) == Lines(rest) + Lines(b)
    ensures Lines((line + "\n" + rest) + b) == Lines(line + "\n" + rest) + Lines(b)
  {
    hide *;
    LinesCons(line, rest);
    LinesCons(line, rest + b);
    Assoc(line + "\n", rest, b);
  }

  // ----- Reading -----

  class Reader {
    const data: string
    var pos: nat

    ghost predicate Valid()
      reads this
    {
      pos <= |data|
    }

    /** What is left to read. */
    ghost function Rest(): string
      requires Valid()
      reads this
    {
      data[pos..]
    }

    constructor (data: string)
      ensures Valid() && Rest() == data
    {
      this.data := data;
      pos := 0;
    }

    /** Reads through the next newline; without one, reads the rest and fails. */
    method ReadString() returns (str: string, failed: bool)
      requires Valid()
      modifies this
      ensures Valid()
      ensures var rest := old(Rest()); var n := FirstNewline(rest);
              && failed == (n == |rest|)
              && str == (if failed then rest else rest[..n + 1])
              && Rest() == rest[|str|..]
    {
      var n := FirstNewline(data[pos..]);
      failed := n == |data| - pos;
      str := if failed then data[pos..] else data[pos..][..n + 1];
      pos := pos + |str|;
    }
  }
}
