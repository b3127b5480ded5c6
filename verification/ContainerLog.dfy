/**
  What the goroutine of a container's stream does itself, step by step (`Stream`, `Stop` and `writeLine`
  of k8s/logs/container_streamer.go). The goroutines its flush starts, and how they interleave with it,
  are in `ContainerRun`.

  `stopAt` says before which pass of the read loop another goroutine calls `Stop`, if it does.
*/
module ContainerLog {
  import opened Text
  import opened LogLines

  datatype Act = Opened | Wrote(line: string) | CalledFlush | Closed

  function Writes(lines: seq<string>): seq<Act> {
    seq(|lines|, i requires 0 <= i < |lines| => Wrote(lines[i]))
  }

  datatype Start = GetterFailed | StartFailed | Started(data: string)

  /** The lines read before pass `stop` of the read loop sees the stop; all of them if it does not. */
  function Followed(data: string, stop: Option<nat>): seq<string> {
    if stop.Some? then Lines(data)[..Min(stop.value, |Lines(data)|)] else Lines(data)
  }

  function StreamActs(start: Start, stop: Option<nat>): seq<Act> {
    match start
    case GetterFailed => []
    case StartFailed => [Opened, Closed]
    case Started(data) => [Opened] + (Writes(Followed(data, stop)) + [CalledFlush]) + [Closed]
  }

  class ContainerStreamer {
    /** How often the stop channel was closed; a second close would panic. */
    var closes: nat
    ghost var acts: seq<Act>

    constructor ()
      ensures closes == 0 && acts == []
    {
      closes := 0;
      acts := [];
    }

    /** Runs under `stopMu`. */
    method Stop()
      requires closes <= 1
      modifies this`closes
      ensures closes == 1
    {
      if closes == 0 {
        closes := closes + 1;
      }
    }

    method WriteLine(r: Reader) returns (failed: bool)
      requires r.Valid()
      modifies r, this`acts
      ensures r.Valid()
      ensures var rest := old(r.Rest());
              if failed then
                |Lines(rest)| <= 1 && acts == old(acts) + Writes(Lines(rest))
              else
                && |Lines(rest)| > 0 && acts == old(acts) + Writes(Lines(rest)[..1])
                && |r.Rest()| < |rest| && Lines(r.Rest()) == Lines(rest)[1..]
    {
      hide Lines;
      ghost var rest := r.Rest();
      FirstLine(rest);
      FirstLine("");
      var str;
      str, failed := r.ReadString();
      if str != "" {
        if str[|str| - 1] == '\n' {
          str := str[..|str| - 1];
        }
        acts := acts + [Wrote(str)];
      }
    }

    /** After the lines that were followed. */
    method CallFlush(ghost start: seq<Act>, ghost data: string, ghost stop: Option<nat>, ghost n: nat)
      requires n <= |Lines(data)| && acts == start + Writes(Lines(data)[..n])
      requires stop == Some(n) || (n == |Lines(data)| && (stop.Some? ==> n <= stop.value))
      modifies this`acts
      ensures acts == start + (Writes(Followed(data, stop)) + [CalledFlush])
    {
      FollowedCut(data, stop, n);
      hide Lines, Writes, Followed;
      acts := acts + [CalledFlush];
    }

    /** A stream whose follow stream opened has closed the stop channel when it returns. */
    method Stream(start: Start, stopAt: Option<nat>)
      requires closes <= 1
      modifies this
      ensures closes == if start.Started? then 1 else old(closes)
      ensures acts == old(acts) + StreamActs(start, if old(closes) == 1 then Some(0) else stopAt)
    {
      hide Followed, Writes;
      if start == GetterFailed {
        return;
      }
      acts := acts + [Opened];
      if start == StartFailed {
        acts := acts + [Closed];
        return;
      }
      Follow(start.data, stopAt);
      acts := acts + [Closed];
    }

    /** Writes line `i` of `lines`, or what is left of them when the stream ends. */
    method NextLine(r: Reader, ghost start: seq<Act>, ghost lines: seq<string>, ghost i: nat) returns (failed: bool)
      requires r.Valid() && HasRead(start, acts, lines, i, Lines(r.Rest()))
      modifies r, this`acts
      ensures r.Valid()
      ensures if failed then
                acts == start + Writes(lines[..|lines|]) && |lines| <= i + 1
              else
                && i < |lines| && HasRead(start, acts, lines, i + 1, Lines(r.Rest()))
                && |r.Rest()| < |old(r.Rest())|
    {
      hide Lines, Writes, HasRead;
      ghost var before, rest := acts, Lines(r.Rest());
      failed := WriteLine(r);
      if failed {
        ReadLast(start, before, lines, i, rest);
      } else {
        ReadOne(start, before, lines, i, rest);
      }
    }

    /** One pass of the read loop. It calls the flush when it sees the stop, or when the stream has ended. */
    method Pass(r: Reader, ghost start: seq<Act>, ghost data: string, ghost stop: Option<nat>, ghost i: nat)
      returns (done: bool)
      requires closes <= 1 && r.Valid() && HasRead(start, acts, Lines(data), i, Lines(r.Rest()))
      requires (closes == 1 <==> stop == Some(i)) && (stop.Some? ==> i <= stop.value)
      modifies this, r
      ensures done ==> closes == 1 && acts == start + (Writes(Followed(data, stop)) + [CalledFlush])
      ensures !done ==>
                && closes == 0 && stop != Some(i) && r.Valid() && i < |Lines(data)|
                && HasRead(start, acts, Lines(data), i + 1, Lines(r.Rest())) && |r.Rest()| < |old(r.Rest())|
    {
      hide Lines, Writes, HasRead, Followed, Reader.Rest;
      if closes == 1 {
        ReadUpTo(start, acts, Lines(data), i, Lines(r.Rest()));
        CallFlush(start, data, stop, i);
        return true;
      }
      var failed := NextLine(r, start, Lines(data), i);
      if failed {
        CallFlush(start, data, stop, |Lines(data)|);
        Stop();
        return true;
      }
      return false;
    }

    /** The read loop. */
    method Follow(data: string, stopAt: Option<nat>)
      requires closes <= 1
      modifies this
      ensures closes == 1
      ensures acts == old(acts) + (Writes(Followed(data, if old(closes) == 1 then Some(0) else stopAt)) + [CalledFlush])
    {
      hide Lines, Writes, HasRead, Followed, Reader.Rest;
      ghost var stop := if closes == 1 then Some(0) else stopAt;
      ReadNone(acts, Lines(data));
      var r := new Reader(data);
      var i := 0;
      while true
        invariant r.Valid() && closes == (if i == 0 then old(closes) else 0)
        invariant stop.Some? ==> i <= stop.value
        invariant HasRead(old(acts), acts, Lines(data), i, Lines(r.Rest()))
        decreases |r.Rest()|
      {
        if stopAt == Some(i) {
          Stop();
        }
        var done := Pass(r, old(acts), data, stop, i);
        if done {
          return;
        }
        i := i + 1;
      }
    }
  }

  lemma FollowedCut(data: string, stop: Option<nat>, n: nat)
    requires n <= |Lines(data)| && (stop == Some(n) || (n == |Lines(data)| && (stop.Some? ==> n <= stop.value)))
    ensures Followed(data, stop) == Lines(data)[..n] && (n == |Lines(data)| ==> Followed(data, stop) == Lines(data))
  {
  }

  /** Since `start` the first `i` lines were written, and these are left to read. */
  ghost predicate HasRead(start: seq<Act>, acts: seq<Act>, lines: seq<string>, i: nat, rest: seq<string>) {
    i <= |lines| && acts == start + Writes(lines[..i]) && rest == lines[i..]
  }

  lemma ReadNone(start: seq<Act>, lines: seq<string>)
    ensures HasRead(start, start, lines, 0, lines)
  {
  }

  lemma ReadOne(start: seq<Act>, acts: seq<Act>, lines: seq<string>, i: nat, rest: seq<string>)
    requires HasRead(start, acts, lines, i, rest) && rest != []
    ensures i < |lines| && HasRead(start, acts + Writes(rest[..1]), lines, i + 1, rest[1..])
  {
    assert Writes(lines[..i]) + Writes(rest[..1]) == Writes(lines[..i + 1]);
  }

  lemma ReadLast(start: seq<Act>, acts: seq<Act>, lines: seq<string>, i: nat, rest: seq<string>)
    requires HasRead(start, acts, lines, i, rest)
    ensures acts + Writes(rest) == start + Writes(lines[..|lines|]) && |lines| == i + |rest|
  {
    assert lines[..|lines|] == lines;
    assert Writes(lines[..i]) + Writes(rest) == Writes(lines);
  }

  lemma ReadUpTo(start: seq<Act>, acts: seq<Act>, lines: seq<string>, i: nat, rest: seq<string>)
    requires HasRead(start, acts, lines, i, rest)
    ensures i <= |lines| && acts == start + Writes(lines[..i])
  {
  }

  /** The followed lines spell out the bytes that were read, all of them if no stop came first. */
  lemma FollowedSpells(data: string, stop: Option<nat>)
    ensures var all := data + if Ended(data) then "" else "\n";
            && Terminated(Followed(data, stop)) <= all
            && (stop == None || stop.value >= |Lines(data)| ==> Terminated(Followed(data, stop)) == all)
            && forall line <- Followed(data, stop) :: '\n' !in line
  {
    LinesSpell(data);
    hide Lines, Terminated;
    if stop.Some? {
      PrefixSpells(Lines(data), Min(stop.value, |Lines(data)|));
      assert Lines(data)[..|Lines(data)|] == Lines(data);
    }
  }

  lemma ActsOfStarted(lines: seq<string>)
    ensures var acts := [Opened] + (Writes(lines) + [CalledFlush]) + [Closed]; var n := |acts|;
            && n == |lines| + 3 && acts[0] == Opened && acts[n - 1] == Closed && acts[n - 2] == CalledFlush
            && forall i | 0 <= i < |lines| :: acts[i + 1] == Wrote(lines[i])
  {
  }

  /**
    Without a getter nothing is opened. Otherwise the writer is opened first and closed last; a stream that
    opened writes its first lines in between, as many as there are before the stop, and then calls the
    flush once.
  */
  lemma StreamBrackets(start: Start, stop: Option<nat>)
    ensures var acts := StreamActs(start, stop); var n := |acts|;
            && (start.GetterFailed? <==> n == 0) && (start.StartFailed? <==> acts == [Opened, Closed])
            && (n > 0 ==> n >= 2 && acts[0] == Opened && acts[n - 1] == Closed)
            && (start.Started? <==> n >= 3 && acts[n - 2] == CalledFlush)
            && (start.Started? ==>
                  var lines := Lines(start.data);
                  && n - 3 == (if stop.Some? && stop.value < |lines| then stop.value else |lines|)
                  && forall i | 0 <= i < n - 3 :: acts[i + 1] == Wrote(lines[i]))
  {
    hide Lines, Writes;
    if start.Started? {
      ActsOfStarted(Followed(start.data, stop));
    }
  }
}
