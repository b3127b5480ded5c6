/**
  Docker image references: parsing, printing and changing the tag (docker/image_url.go,
  k8s/set_container_image_tag.go).
*/
module ImageRef {
  import opened Text

  datatype ImageUrl = ImageUrl(registry: string, user: string, repo: string, tag: string, digest: string, insecure: bool)

  /** The position of the first `c`, or the length of the string. */
  function Index(s: string, c: char): (i: nat)
    ensures i <= |s| && (i < |s| ==> s[i] == c) && forall j | 0 <= j < i :: s[j] != c
  {
    if s == "" || s[0] == c then 0 else 1 + Index(s[1..], c)
  }

  predicate Has(s: string, c: char) {
    exists i :: 0 <= i < |s| && s[i] == c
  }

  /** Go's strings.SplitN with a one-character separator. */
  function SplitN(s: string, c: char, n: nat): (tokens: seq<string>)
    requires n > 0
    ensures 0 < |tokens| <= n
  {
    var i := Index(s, c);
    if n == 1 || i == |s| then [s] else [s[..i]] + SplitN(s[i + 1..], c, n - 1)
  }

  /** The first of two identifiers is a domain if it contains `.` or `:` or is `localhost`. */
  predicate IsDomain(s: string) {
    Has(s, '.') || Has(s, ':') || s == "localhost"
  }

  // ----- Printing and parsing -----

  function Print(u: ImageUrl): string {
    var cur := u.repo;
    var cur := if u.user != "" then u.user + "/" + cur else cur;
    var cur := if u.registry != "" then u.registry + "/" + cur else cur;
    var cur := if u.tag != "" then cur + ":" + u.tag else cur;
    if u.digest != "" then cur + "@" + u.digest else cur
  }

  datatype Path = Path(registry: string, user: string, rest: string)
  datatype Name = Name(repo: string, tag: string, digest: string)

  function ParsePath(raw: string): Path {
    var i := Index(raw, '/');
    if i == |raw| then Path("", "", raw) else
    var first, rest := raw[..i], raw[i + 1..];
    var j := Index(rest, '/');
    if j < |rest| then Path(first, rest[..j], rest[j + 1..])
    else if IsDomain(first) then Path(first, "", rest)
    else Path("", first, rest)
  }

  function ParseName(s: string): Name {
    var at, colon := Index(s, '@'), Index(s, ':');
    if at < |s| then Name(s[..at], "", s[at + 1..])
    else if colon < |s| then Name(s[..colon], s[colon + 1..], "")
    else Name(s, "", "")
  }

  function Parse(raw: string): ImageUrl {
    var path := ParsePath(raw);
    var name := ParseName(path.rest);
    ImageUrl(path.registry, path.user, name.repo, name.tag, name.digest, false)
  }

  method ParseImageUrl(raw: string) returns (it: ImageUrl)
    ensures it == Parse(raw)
  {
    it := ImageUrl("", "", raw, "", "", false);
    SplitThree(raw);
    hide SplitN, Index, ParsePath, ParseName, Has;
    var tokens := SplitN(raw, '/', 3);
    if |tokens| == 3 {
      it := it.(registry := tokens[0]);
      it := it.(user := tokens[1]);
      it := it.(repo := tokens[2]);
    } else if |tokens| == 2 {
      if IsDomain(tokens[0]) {
        it := it.(registry := tokens[0]);
        it := it.(repo := tokens[1]);
      } else {
        it := it.(user := tokens[0]);
        it := it.(repo := tokens[1]);
      }
    }
    it := ParseRepo(it);
  }

  method ParseRepo(start: ImageUrl) returns (it: ImageUrl)
    requires start.tag == start.digest == ""
    ensures var n := ParseName(start.repo); it == start.(repo := n.repo, tag := n.tag, digest := n.digest)
  {
    it := start;
    SplitTwo(it.repo, '@');
    SplitTwo(it.repo, ':');
    hide SplitN;
    var tokens := SplitN(it.repo, '@', 2);
    if |tokens| == 2 {
      it := it.(repo := tokens[0]);
      it := it.(digest := tokens[1]);
    } else {
      tokens := SplitN(it.repo, ':', 2);
      if |tokens| == 2 {
        it := it.(repo := tokens[0]);
        it := it.(tag := tokens[1]);
      }
    }
  }

  lemma SplitTwo(s: string, c: char)
    ensures SplitN(s, c, 2) == if Index(s, c) == |s| then [s] else [s[..Index(s, c)], s[Index(s, c) + 1..]]
  {
  }

  lemma SplitThree(s: string)
    ensures var tokens, path := SplitN(s, '/', 3), ParsePath(s);
            && tokens[|tokens| - 1] == path.rest
            && (|tokens| == 3 ==> tokens[0] == path.registry && tokens[1] == path.user)
            && (|tokens| == 2 ==>
                  (path.registry, path.user) == if IsDomain(tokens[0]) then (tokens[0], "") else ("", tokens[0]))
            && (|tokens| == 1 ==> path == Path("", "", s))
  {
    var i := Index(s, '/');
    if i < |s| {
      SplitTwo(s[i + 1..], '/');
    }
  }

  // ----- What is printed, in two halves -----

  function Lead(segment: string): string {
    if segment == "" then "" else segment + "/"
  }

  function After(c: char, piece: string): string {
    if piece == "" then "" else [c] + piece
  }

  function Prefix(registry: string, user: string): string {
    Lead(registry) + Lead(user)
  }

  function Tail(repo: string, tag: string, digest: string): string {
    repo + After(':', tag) + After('@', digest)
  }

  lemma Leads(segment: string, cur: string)
    ensures (if segment != "" then segment + "/" + cur else cur) == Lead(segment) + cur
  {
  }

  lemma Follows(cur: string, c: char, piece: string)
    ensures (if piece != "" then cur + [c] + piece else cur) == cur + After(c, piece)
  {
    if piece != "" {
      Assoc(cur, [c], piece);
    }
  }

  lemma PrintPieces(u: ImageUrl)
    ensures Print(u) == ((Lead(u.registry) + (Lead(u.user) + u.repo)) + After(':', u.tag)) + After('@', u.digest)
  {
    hide Lead, After;
    Leads(u.user, u.repo);
    var path := Lead(u.user) + u.repo;
    Leads(u.registry, path);
    var full := Lead(u.registry) + path;
    Follows(full, ':', u.tag);
    Follows(full + After(':', u.tag), '@', u.digest);
  }

  lemma Regroup(a: string, b: string, c: string, d: string, e: string)
    ensures ((a + (b + c)) + d) + e == (a + b) + (c + d + e)
  {
  }

  lemma PrintHalves(u: ImageUrl)
    ensures Print(u) == Prefix(u.registry, u.user) + Tail(u.repo, u.tag, u.digest)
  {
    PrintPieces(u);
    hide Print, Lead, After;
    Regroup(Lead(u.registry), Lead(u.user), u.repo, After(':', u.tag), After('@', u.digest));
  }

  // ----- Printing what was parsed -----

  /** The segments before the name, and the tag or digest after it, are not empty. */
  predicate NoEmptyPiece(raw: string) {
    LeadingFilled(raw) && LastFilled(ParsePath(raw).rest)
  }

  predicate LeadingFilled(raw: string) {
    var i := Index(raw, '/');
    i < |raw| ==> i > 0 && !(i + 1 < |raw| && raw[i + 1] == '/')
  }

  predicate LastFilled(name: string) {
    if Has(name, '@') then Index(name, '@') < |name| - 1 else Has(name, ':') ==> Index(name, ':') < |name| - 1
  }

  /** What `p` prints gives back `s` if `filled`, and is shorter than `s` if not. */
  ghost predicate GivesBack(printed: string, s: string, filled: bool) {
    if filled then printed == s else |printed| < |s|
  }

  lemma ThreeSegments(first: string, second: string, rest: string, raw: string)
    requires raw == first + ("/" + (second + ("/" + rest)))
    ensures GivesBack(Prefix(first, second) + rest, raw, first != "" && second != "")
  {
    if first != "" && second != "" {
      Regroup4(first, "/", second + "/", rest);
      Assoc(second, "/", rest);
    }
  }

  lemma Regroup4(a: string, b: string, c: string, d: string)
    ensures ((a + b) + c) + d == a + (b + (c + d))
  {
  }

  lemma TwoSegments(first: string, rest: string, raw: string)
    requires raw == first + ("/" + rest)
    ensures GivesBack(Prefix(first, "") + rest, raw, first != "")
            && GivesBack(Prefix("", first) + rest, raw, first != "")
  {
  }

  lemma PathPrinted(raw: string)
    ensures var p := ParsePath(raw); GivesBack(Prefix(p.registry, p.user) + p.rest, raw, LeadingFilled(raw))
  {
    var i := Index(raw, '/');
    if i == |raw| {
      assert Prefix("", "") + raw == raw;
    } else if Index(raw[i + 1..], '/') < |raw[i + 1..]| {
      ThreePrinted(raw);
    } else {
      TwoPrinted(raw);
    }
  }

  predicate Slashed(raw: string) {
    Index(raw, '/') < |raw|
  }

  predicate TwoSlashes(raw: string) {
    Slashed(raw) && Slashed(raw[Index(raw, '/') + 1..])
  }

  lemma ThreePath(w: string, i: nat, j: nat)
    requires i == Index(w, '/') < |w| && j == Index(w[i + 1..], '/') < |w| - i - 1
    ensures ParsePath(w) == Path(w[..i], w[i + 1..][..j], w[i + 1..][j + 1..])
  {
    hide Index, IsDomain;
  }

  lemma TwoLeading(raw: string)
    requires TwoSlashes(raw)
    ensures LeadingFilled(raw) <==> Index(raw, '/') > 0 && Index(raw[Index(raw, '/') + 1..], '/') > 0
  {
    var rest := raw[Index(raw, '/') + 1..];
    assert rest[0] == raw[Index(raw, '/') + 1];
  }

  lemma ThreePrinted(raw: string)
    requires TwoSlashes(raw)
    ensures var p := ParsePath(raw); GivesBack(Prefix(p.registry, p.user) + p.rest, raw, LeadingFilled(raw))
  {
    var i := Index(raw, '/');
    var first, rest := raw[..i], raw[i + 1..];
    var j := Index(rest, '/');
    TwoLeading(raw);
    hide *;
    ThreePath(raw, i, j);
    CutAt(raw, i, '/');
    CutAt(rest, j, '/');
    ThreeSegments(first, rest[..j], rest[j + 1..], raw);
  }

  lemma OneLeading(raw: string)
    requires Slashed(raw) && !Slashed(raw[Index(raw, '/') + 1..])
    ensures LeadingFilled(raw) <==> Index(raw, '/') > 0
  {
    var rest := raw[Index(raw, '/') + 1..];
    assert rest != "" ==> rest[0] == raw[Index(raw, '/') + 1] && rest[0] != '/';
  }

  lemma OnePath(w: string)
    requires !TwoSlashes(w)
    ensures var i := Index(w, '/');
            ParsePath(w) == if i == |w| then Path("", "", w)
                            else if IsDomain(w[..i]) then Path(w[..i], "", w[i + 1..]) else Path("", w[..i], w[i + 1..])
    ensures LeadingFilled(w) <==> Index(w, '/') > 0 || w == ""
  {
    if Slashed(w) {
      OneLeading(w);
    }
    hide IsDomain, Index;
  }

  lemma TwoPrinted(raw: string)
    requires Slashed(raw) && !TwoSlashes(raw)
    ensures var p := ParsePath(raw); GivesBack(Prefix(p.registry, p.user) + p.rest, raw, LeadingFilled(raw))
  {
    var i := Index(raw, '/');
    OnePath(raw);
    assert raw != "" && (raw[..i] != "" <==> i > 0);
    hide *;
    CutAt(raw, i, '/');
    TwoSegments(raw[..i], raw[i + 1..], raw);
  }

  lemma NamePieces(repo: string, c: char, piece: string, s: string)
    requires s == repo + ([c] + piece)
    ensures GivesBack(repo + After(c, piece), s, piece != "")
  {
  }

  lemma NamePrinted(s: string)
    ensures var n := ParseName(s); GivesBack(Tail(n.repo, n.tag, n.digest), s, LastFilled(s))
  {
    var at, colon := Index(s, '@'), Index(s, ':');
    assert Has(s, '@') <==> at < |s|;
    assert Has(s, ':') <==> colon < |s|;
    hide Has, Index, GivesBack;
    assert forall t: string :: t + "" == t;
    if at < |s| {
      CutAt(s, at, '@');
      NamePieces(s[..at], '@', s[at + 1..], s);
    } else if colon < |s| {
      CutAt(s, colon, ':');
      NamePieces(s[..colon], ':', s[colon + 1..], s);
    } else {
      assert GivesBack(s, s, true);
    }
  }

  /** Printing a parsed reference gives it back exactly if none of its pieces is empty. */
  lemma PrintParse(raw: string)
    ensures Print(Parse(raw)) == raw <==> NoEmptyPiece(raw)
  {
    var p := ParsePath(raw);
    var n := ParseName(p.rest);
    PathPrinted(raw);
    NamePrinted(p.rest);
    PrintHalves(Parse(raw));
    hide ParsePath, ParseName, Print, LeadingFilled, LastFilled, Tail, Prefix;
    if Print(Parse(raw)) == raw {
      assert |Prefix(p.registry, p.user)| + |Tail(n.repo, n.tag, n.digest)| == |raw|;
    }
  }

  // ----- Parsing what was printed -----

  /** The segments before the name are read as they were written. */
  predicate PathReads(registry: string, user: string, rest: string) {
    && !Has(registry, '/') && !Has(user, '/')
    && (registry == "" || user == "" ==> !Has(rest, '/'))
    && (registry != "" && user == "" ==> IsDomain(registry))
    && (registry == "" && user != "" ==> !IsDomain(user))
  }

  predicate NameReads(repo: string, tag: string, digest: string) {
    !Has(repo, '@') && if digest != "" then tag == "" else !Has(repo, ':') && !Has(tag, '@')
  }

  predicate WellFormed(u: ImageUrl) {
    !u.insecure && PathReads(u.registry, u.user, Tail(u.repo, u.tag, u.digest)) && NameReads(u.repo, u.tag, u.digest)
  }

  lemma IndexOfConcat(s: string, c: char, t: string)
    requires !Has(s, c)
    ensures Index(s + [c] + t, c) == |s| && (s + [c] + t)[..|s|] == s && (s + [c] + t)[|s| + 1..] == t
  {
    var all := s + [c] + t;
    assert all[|s|] == c && forall j | 0 <= j < |s| :: all[j] == s[j];
  }

  lemma IndexAbsent(s: string, c: char)
    ensures Index(s, c) == |s| <==> !Has(s, c)
  {
  }

  lemma PathShape(raw: string)
    requires LeadingFilled(raw)
    ensures var p := ParsePath(raw); PathReads(p.registry, p.user, p.rest)
  {
    var i := Index(raw, '/');
    if i < |raw| {
      var rest := raw[i + 1..];
      assert rest != "" ==> rest[0] == raw[i + 1];
    }
  }

  lemma NameShape(s: string)
    requires LastFilled(s)
    ensures var n := ParseName(s); NameReads(n.repo, n.tag, n.digest)
  {
  }

  lemma ThreeParse(registry: string, user: string, rest: string)
    requires !Has(registry, '/') && !Has(user, '/') && registry != "" && user != ""
    ensures ParsePath(Prefix(registry, user) + rest) == Path(registry, user, rest)
  {
    assert (registry + "/" + (user + "/")) + rest == registry + "/" + (user + "/" + rest);
    IndexOfConcat(registry, '/', user + "/" + rest);
    IndexOfConcat(user, '/', rest);
    hide Index, Has;
  }

  lemma TwoParse(first: string, rest: string)
    requires !Has(first, '/') && !Has(rest, '/') && first != ""
    ensures ParsePath(Lead(first) + rest) == if IsDomain(first) then Path(first, "", rest) else Path("", first, rest)
  {
    IndexOfConcat(first, '/', rest);
    IndexAbsent(rest, '/');
    hide Index, Has, IsDomain;
  }

  /**
    Of two segments, the first is a registry exactly if it holds a dot or a colon or is `localhost`, and a
    user otherwise.
  */
  lemma RegistryOrUser(first: string, rest: string)
    requires !Has(first, '/') && !Has(rest, '/')
    ensures var p := ParsePath(first + "/" + rest);
            && p.rest == rest && Parse(first + "/" + rest).registry == p.registry
            && Parse(first + "/" + rest).user == p.user
            && (p.registry, p.user) ==
               if '.' in first || ':' in first || first == "localhost" then (first, "") else ("", first)
  {
    IndexOfConcat(first, '/', rest);
    IndexAbsent(rest, '/');
    assert IsDomain(first) <==> '.' in first || ':' in first || first == "localhost";
    hide Index, Has, IsDomain, ParseName;
  }

  lemma PathParses(registry: string, user: string, rest: string)
    requires PathReads(registry, user, rest)
    ensures ParsePath(Prefix(registry, user) + rest) == Path(registry, user, rest)
  {
    if registry != "" && user != "" {
      ThreeParse(registry, user, rest);
    } else if registry != "" || user != "" {
      assert Prefix(registry, user) == Lead(if registry != "" then registry else user);
      TwoParse(if registry != "" then registry else user, rest);
    } else {
      IndexAbsent(rest, '/');
      assert Prefix(registry, user) + rest == rest;
    }
  }

  lemma NameParses(repo: string, tag: string, digest: string)
    requires NameReads(repo, tag, digest)
    ensures ParseName(Tail(repo, tag, digest)) == Name(repo, tag, digest)
  {
    var s := Tail(repo, tag, digest);
    if digest != "" {
      assert s == repo + "@" + digest;
      IndexOfConcat(repo, '@', digest);
    } else if tag != "" {
      assert s == repo + ":" + tag;
      IndexOfConcat(repo, ':', tag);
      assert !Has(s, '@');
      IndexAbsent(s, '@');
    } else {
      assert s == repo;
      IndexAbsent(s, '@');
      IndexAbsent(s, ':');
    }
  }

  /** Parsing a printed reference gives it back exactly if it is well formed. */
  lemma ParsePrint(u: ImageUrl)
    ensures Parse(Print(u)) == u <==> WellFormed(u)
  {
    PrintHalves(u);
    var tail := Tail(u.repo, u.tag, u.digest);
    if WellFormed(u) {
      PathParses(u.registry, u.user, tail);
      NameParses(u.repo, u.tag, u.digest);
    }
    if Parse(Print(u)) == u {
      PrintParse(Print(u));
      var p := ParsePath(Print(u));
      PathPrinted(Print(u));
      PathShape(Print(u));
      NamePrinted(p.rest);
      NameShape(p.rest);
    }
  }

  // ----- Changing the tag -----

  function Retag(image: string, tag: string): string {
    Print(Parse(image).(digest := "", tag := tag))
  }

  /** A tag that cannot be mistaken for another piece of a reference. */
  predicate PlainTag(tag: string) {
    tag != "" && !Has(tag, '/') && !Has(tag, '@')
  }

  /** Retagging goes wrong exactly for names that keep a colon: those with a tag and a digest. */
  lemma ColonKept(image: string)
    ensures var name := ParsePath(image).rest;
            Has(Parse(image).repo, ':') <==> Has(name, '@') && Index(name, ':') < Index(name, '@')
  {
    var name := ParsePath(image).rest;
    var at, colon := Index(name, '@'), Index(name, ':');
    assert Has(name, '@') <==> at < |name|;
    if at < |name| && colon < at {
      assert name[..at][colon] == ':';
    }
  }

  /** The retagged reference keeps its path, and nothing in it can be taken for a digest. */
  lemma RetaggedShape(image: string, tag: string)
    requires LeadingFilled(image) && PlainTag(tag)
    ensures var u := Parse(image);
            && PathReads(u.registry, u.user, Tail(u.repo, tag, "")) && !Has(u.repo, '@')
            && Tail(u.repo, tag, "") == u.repo + ":" + tag
  {
    PathShape(image);
    var p := ParsePath(image);
    var name := ParseName(p.rest);
    assert Tail(name.repo, tag, "") == name.repo + ":" + tag;
    assert name.repo == p.rest[..|name.repo|];
    if !Has(p.rest, '/') {
      assert forall i | 0 <= i < |name.repo| :: name.repo[i] == p.rest[i];
      assert !Has(name.repo + ":" + tag, '/');
    }
  }

  /**
    A retagged reference reads as the same registry, user and repository with the new tag and no digest,
    exactly if the parsed repository kept no colon, the tag has no at sign, and the segments before the name
    are still read as they were. The last holds if none of them is empty and the tag is plain.
  */
  lemma RetagReads(image: string, tag: string)
    ensures var u := Parse(image);
            Parse(Retag(image, tag)) == u.(digest := "", tag := tag) <==>
            !Has(u.repo, ':') && !Has(tag, '@') && PathReads(u.registry, u.user, Tail(u.repo, tag, ""))
    ensures LeadingFilled(image) && PlainTag(tag) ==>
              var u := Parse(image); !Has(tag, '@') && PathReads(u.registry, u.user, Tail(u.repo, tag, ""))
  {
    var u := Parse(image);
    RepoHasNoAt(image);
    ParsePrint(u.(digest := "", tag := tag));
    if LeadingFilled(image) && PlainTag(tag) {
      RetaggedShape(image, tag);
    }
    hide Parse, Print, PathReads, Tail, Has, LeadingFilled;
  }

  lemma RepoHasNoAt(image: string)
    ensures !Has(Parse(image).repo, '@')
  {
    var name := ParsePath(image).rest;
    IndexAbsent(name, '@');
    hide ParsePath;
  }

  // ----- Changing the tag again -----

  /** The text read as a reference ends in this tag, and the segments before the name are not empty. */
  predicate OwnTag(raw: string, tag: string) {
    var name := ParsePath(raw).rest;
    LeadingFilled(raw) && !Has(name, '@') && Index(name, ':') == |name| - |After(':', tag)|
  }

  /** The text without tag and digest. */
  function Bare(image: string): string {
    var u := Parse(image); Prefix(u.registry, u.user) + u.repo
  }

  lemma RetagIsBare(image: string, tag: string)
    ensures Retag(image, tag) == Bare(image) + After(':', tag)
  {
    var u := Parse(image);
    PrintHalves(u.(digest := "", tag := tag));
    hide Print, Prefix, Parse, After;
    assert After('@', "") == "" by { AfterNothing('@'); }
    assert u.repo + After(':', tag) + "" == u.repo + After(':', tag);
    Assoc(Prefix(u.registry, u.user), u.repo, After(':', tag));
  }

  lemma AfterNothing(c: char)
    ensures After(c, "") == ""
  {
  }

  /** Where the name's repository ends: at a separator, or at the end of the name. */
  lemma RepoEnds(name: string)
    ensures var n := |ParseName(name).repo|;
            && n <= |name| && ParseName(name).repo == name[..n]
            && (n < |name| ==> name[n] == '@' || name[n] == ':')
            && (n < |name| && name[n] == ':' ==> !Has(name, '@') && Index(name, ':') == n)
            && (n == |name| ==> !Has(name, '@') && Index(name, ':') == n)
  {
    IndexAbsent(name, '@');
  }

  lemma OwnTagCut(w: string, tag: string)
    requires OwnTag(w, tag)
    ensures var p, n := ParsePath(w), |After(':', tag)|;
            && n <= |p.rest| && Prefix(p.registry, p.user) + p.rest == w
            && Bare(w) == Prefix(p.registry, p.user) + p.rest[..|p.rest| - n]
  {
    var name := ParsePath(w).rest;
    PathPrinted(w);
    RepoEnds(name);
    IndexAbsent(name, '@');
    hide Index, Has, ParsePath, Prefix, After, LeadingFilled;
    assert ParseName(name).repo == name[..|name| - |After(':', tag)|];
    hide ParseName;
  }

  /** Cut at the tag, the text is what was before it. */
  lemma OwnTagBare(w: string, front: string, tag: string)
    requires w == front + After(':', tag) && OwnTag(w, tag)
    ensures Bare(w) == front
  {
    hide *;
    OwnTagCut(w, tag);
    var p, n := ParsePath(w), |After(':', tag)|;
    var lead, name := Prefix(p.registry, p.user), p.rest;
    assert (lead + name)[..|w| - n] == lead + name[..|name| - n];
    assert (front + After(':', tag))[..|w| - n] == front;
  }

  lemma {:induction false} SlashesRun(w: string, from: nat, end: nat, d: nat)
    requires 0 < d && from <= end < |w| && (forall t | from <= t < from + d && t < |w| :: w[t] == '/')
    requires forall t | from <= t && t + d <= end :: w[t] == w[t + d]
    ensures w[end] == '/'
    decreases end
  {
    if end >= from + d {
      SlashesRun(w, from, end - d, d);
      assert w[end - d] == w[end - d + d];
    }
  }

  /** Text that lost `d` of its slashes at `from` is not the text up to `m`. */
  lemma LostSlashes(w: string, from: nat, d: nat, n: nat, m: nat)
    requires 0 < d && from + d + n <= |w| && (forall t | from <= t < from + d :: w[t] == '/')
    requires m <= |w| && (m < |w| ==> w[m] == ':')
    ensures w[..from] + w[from + d..from + d + n] != w[..m]
  {
    var k := w[..from] + w[from + d..from + d + n];
    if k == w[..m] {
      assert m == from + n;
      assert forall t | from <= t < m :: k[t] == w[t + d];
      SlashesRun(w, from, m, d);
      assert false;
    }
  }

  lemma BareIs(w: string) returns (n: nat)
    ensures var p := ParsePath(w); n <= |p.rest| && Bare(w) == Prefix(p.registry, p.user) + p.rest[..n]
  {
    var p := ParsePath(w);
    RepoEnds(p.rest);
    n := |ParseName(p.rest).repo|;
    hide ParsePath, Prefix;
  }

  lemma EmptySecondPath(w: string)
    requires Slashed(w) && !LeadingFilled(w) && Index(w, '/') > 0
    ensures var i := Index(w, '/');
            i + 1 < |w| && w[i] == w[i + 1] == '/' && ParsePath(w) == Path(w[..i], "", w[i + 2..])
  {
    var i := Index(w, '/');
    var rest := w[i + 1..];
    assert rest[0] == '/' && Index(rest, '/') == 0;
    ThreePath(w, i, 0);
    hide *;
    assert rest[1..] == w[i + 2..] && rest[..0] == "";
  }

  lemma BareSecond(w: string, i: nat) returns (n: nat)
    requires i + 1 < |w| && w[i] == '/' && ParsePath(w) == Path(w[..i], "", w[i + 2..]) && i > 0
    ensures i + 2 + n <= |w| && Bare(w) == w[..i + 1] + w[i + 2..i + 2 + n]
  {
    hide ParsePath, Bare;
    n := BareIs(w);
    assert w[i + 2..][..n] == w[i + 2..i + 2 + n];
    assert Prefix(w[..i], "") == w[..i + 1];
  }

  lemma DoubledSlash(w: string, i: nat, m: nat)
    requires i > 0 && i + 1 < |w| && w[i] == w[i + 1] == '/' && ParsePath(w) == Path(w[..i], "", w[i + 2..])
    requires m <= |w| && (m < |w| ==> w[m] == ':')
    ensures Bare(w) != w[..m]
  {
    hide *;
    var n := BareSecond(w, i);
    assert forall t | i + 1 <= t < i + 2 :: w[t] == '/';
    LostSlashes(w, i + 1, 1, n, m);
  }

  lemma EmptySecond(w: string, m: nat)
    requires m <= |w| && (m < |w| ==> w[m] == ':') && Slashed(w) && !LeadingFilled(w) && Index(w, '/') > 0
    ensures Bare(w) != w[..m]
  {
    EmptySecondPath(w);
    hide *;
    DoubledSlash(w, Index(w, '/'), m);
  }

  lemma EmptyFirstPath(w: string)
    requires w != "" && w[0] == '/'
    ensures var rest := w[1..]; var j := Index(rest, '/');
            ParsePath(w) == if j == |rest| then Path("", "", rest) else Path("", rest[..j], rest[j + 1..])
  {
    assert Index(w, '/') == 0 && w[..0] == "" && !IsDomain("");
  }

  lemma BareFirst(w: string, d: nat) returns (n: nat)
    requires d <= |w| && ParsePath(w) == Path("", "", w[d..])
    ensures d + n <= |w| && Bare(w) == w[..0] + w[d..d + n]
  {
    hide ParsePath, Bare;
    n := BareIs(w);
    assert w[d..][..n] == w[d..d + n];
    assert Prefix("", "") == "";
  }

  lemma EmptyOnly(w: string, m: nat)
    requires m <= |w| && (m < |w| ==> w[m] == ':') && w != "" && w[0] == '/' && ParsePath(w) == Path("", "", w[1..])
    ensures Bare(w) != w[..m]
  {
    hide *;
    var n := BareFirst(w, 1);
    LostSlashes(w, 0, 1, n, m);
  }

  lemma EmptyTwice(w: string, m: nat)
    requires m <= |w| && (m < |w| ==> w[m] == ':') && |w| > 1 && w[0] == w[1] == '/'
    requires ParsePath(w) == Path("", "", w[2..])
    ensures Bare(w) != w[..m]
  {
    hide *;
    var n := BareFirst(w, 2);
    LostSlashes(w, 0, 2, n, m);
  }

  lemma EmptyFirst(w: string, m: nat)
    requires m <= |w| && (m < |w| ==> w[m] == ':') && w != "" && w[0] == '/'
    ensures Bare(w) != w[..m]
  {
    EmptyFirstPath(w);
    var rest := w[1..];
    var j := Index(rest, '/');
    hide ParsePath, Bare;
    if j == |rest| {
      EmptyOnly(w, m);
    } else if j == 0 {
      assert w[1] == rest[0] == '/' && rest[1..] == w[2..] && rest[..0] == "";
      EmptyTwice(w, m);
    } else {
      BareNoSlash(w, j);
    }
  }

  lemma BareNoSlash(w: string, j: nat)
    requires 0 < j < |w| - 1 && w[1] != '/' && ParsePath(w) == Path("", w[1..][..j], w[1..][j + 1..])
    ensures Bare(w) != "" && Bare(w)[0] != '/'
  {
    hide ParsePath, Bare;
    var n := BareIs(w);
    assert Prefix("", w[1..][..j]) == w[1..][..j] + "/";
  }

  /** If a leading segment is empty, what is printed without the tag is not what stood before it. */
  lemma EmptyLeadMoves(w: string, m: nat)
    requires m <= |w| && (m < |w| ==> w[m] == ':') && !LeadingFilled(w)
    ensures Bare(w) != w[..m]
  {
    if Index(w, '/') > 0 {
      EmptySecond(w, m);
    } else {
      EmptyFirst(w, m);
    }
  }

  /** And only then. */
  lemma BareOwnTag(w: string, front: string, tag: string)
    requires w == front + After(':', tag) && Bare(w) == front
    ensures OwnTag(w, tag)
  {
    var m := |front|;
    assert w[..m] == front && (m < |w| ==> w[m] == ':');
    if !LeadingFilled(w) {
      EmptyLeadMoves(w, m);
    }
    var p := ParsePath(w);
    PathPrinted(w);
    RepoEnds(p.rest);
    var lead, name, n := Prefix(p.registry, p.user), p.rest, |ParseName(p.rest).repo|;
    assert lead + name == w && Bare(w) == lead + name[..n];
    hide ParsePath, ParseName, Prefix, LeadingFilled, Bare, After, Index, Has;
    assert n == |name| - |After(':', tag)|;
    assert n < |name| ==> (lead + name)[m] == name[n];
  }

  // ----- The same condition on what is left without tag and digest -----

  /** A tag added to this text is read back, and the segments before the name stay what they are. */
  predicate KeepsTag(front: string, tag: string) {
    var name := ParsePath(front).rest;
    && LeadingFilled(front) && !Has(name, ':') && !Has(name, '@') && !Has(tag, '@')
    && (Has(tag, '/') ==> TwoSlashes(front))
  }

  lemma {:induction false} IndexAppend(s: string, t: string, c: char)
    ensures Index(s + t, c) == if Index(s, c) < |s| then Index(s, c) else |s| + Index(t, c)
  {
    if s == "" {
      assert s + t == t;
    } else {
      assert (s + t)[1..] == s[1..] + t;
      IndexAppend(s[1..], t, c);
    }
  }

  lemma HasAppend(s: string, t: string, c: char)
    ensures Has(s + t, c) <==> Has(s, c) || Has(t, c)
  {
    IndexAppend(s, t, c);
    IndexAbsent(s + t, c);
    IndexAbsent(s, c);
    IndexAbsent(t, c);
    hide Has, Index;
  }

  /** Text is added to the name alone: the leading segments are all there, or there is no slash in it. */
  predicate AddsToName(front: string, t: string) {
    && ParsePath(front + t) == ParsePath(front).(rest := ParsePath(front).rest + t)
    && (LeadingFilled(front + t) <==> LeadingFilled(front))
  }

  lemma SliceAppend(s: string, t: string, i: nat)
    requires i <= |s|
    ensures (s + t)[..i] == s[..i] && (s + t)[i..] == s[i..] + t
  {
  }

  lemma TwoSlashesAdded(front: string, t: string)
    requires TwoSlashes(front)
    ensures var i := Index(front, '/'); var rest := front[i + 1..]; var j := Index(rest, '/');
            && Index(front + t, '/') == i && (front + t)[i + 1..] == rest + t && Index(rest + t, '/') == j
            && i < |front| && j < |rest| && (front + t)[..i] == front[..i]
  {
    var i := Index(front, '/');
    IndexAppend(front, t, '/');
    IndexAppend(front[i + 1..], t, '/');
    hide Index;
    SliceAppend(front, t, i);
    SliceAppend(front, t, i + 1);
  }

  lemma FilledAfterTwo(front: string, t: string)
    requires TwoSlashes(front)
    ensures TwoSlashes(front + t) && (LeadingFilled(front + t) <==> LeadingFilled(front))
  {
    TwoSlashesAdded(front, t);
    hide Index, LeadingFilled;
    TwoLeading(front);
    TwoLeading(front + t);
  }

  /** The same with the text after the first slash named. */
  lemma ThreePathOf(w: string, i: nat, rest: string, j: nat)
    requires i == Index(w, '/') < |w| && rest == w[i + 1..] && j == Index(rest, '/') < |rest|
    ensures ParsePath(w) == Path(w[..i], rest[..j], rest[j + 1..])
  {
    hide *;
    ThreePath(w, i, j);
  }

  lemma PathAfterTwo(front: string, t: string)
    requires TwoSlashes(front)
    ensures ParsePath(front + t) == ParsePath(front).(rest := ParsePath(front).rest + t)
  {
    TwoSlashesAdded(front, t);
    hide *;
    var i := Index(front, '/');
    var rest := front[i + 1..];
    var j := Index(rest, '/');
    ThreePathOf(front, i, rest, j);
    ThreePathOf(front + t, i, rest + t, j);
    SliceAppend(rest, t, j);
    SliceAppend(rest, t, j + 1);
  }

  lemma AddedAfterTwo(front: string, t: string)
    requires TwoSlashes(front)
    ensures AddsToName(front, t)
  {
    hide ParsePath, LeadingFilled, TwoSlashes;
    FilledAfterTwo(front, t);
    PathAfterTwo(front, t);
  }

  /** Text without a slash leaves the slashes where they are. */
  lemma NoSlashAdded(front: string, t: string)
    requires !TwoSlashes(front) && !Has(t, '/')
    ensures var i := Index(front, '/');
            && !TwoSlashes(front + t) && (Slashed(front + t) <==> Slashed(front))
            && (i < |front| ==> Index(front + t, '/') == i && (front + t)[..i] == front[..i]
                                && (front + t)[i + 1..] == front[i + 1..] + t)
  {
    var i := Index(front, '/');
    hide Index, Has;
    IndexAbsent(t, '/');
    IndexAppend(front, t, '/');
    if i < |front| {
      IndexAppend(front[i + 1..], t, '/');
      SliceAppend(front, t, i);
      SliceAppend(front, t, i + 1);
    }
  }

  lemma AddedWithoutSlash(front: string, t: string)
    requires !TwoSlashes(front) && !Has(t, '/')
    ensures AddsToName(front, t)
  {
    hide ParsePath, LeadingFilled, IsDomain, Index, Has, TwoSlashes;
    NoSlashAdded(front, t);
    OnePath(front);
    OnePath(front + t);
  }

  lemma NameShort(w: string)
    requires Slashed(w)
    ensures |ParsePath(w).rest| <= |w| - Index(w, '/') - 1
  {
    hide Index, IsDomain;
  }

  lemma NameShorter(w: string, i: nat, j: nat)
    requires i == Index(w, '/') < |w| && j == Index(w[i + 1..], '/') < |w| - i - 1
    ensures |ParsePath(w).rest| == |w| - i - j - 2
  {
    ThreePath(w, i, j);
    hide *;
    assert |w[i + 1..]| == |w| - i - 1;
  }

  /** A slash in the added text makes it lead elsewhere: less than it is left as the name. */
  lemma AddedWithSlash(front: string, t: string)
    requires !TwoSlashes(front) && Has(t, '/')
    ensures |ParsePath(front + t).rest| < |t|
  {
    var i := Index(front, '/');
    IndexAbsent(t, '/');
    IndexAppend(front, t, '/');
    hide ParsePath, Index, Has;
    if i < |front| {
      IndexAppend(front[i + 1..], t, '/');
      SliceAppend(front, t, i + 1);
      NameShorter(front + t, i, |front| - i - 1 + Index(t, '/'));
    } else {
      NameShort(front + t);
    }
  }

  lemma NameKeepsTag(name: string, tag: string)
    ensures var t := After(':', tag);
            !Has(name + t, '@') && Index(name + t, ':') == |name| <==>
            !Has(name, ':') && !Has(name, '@') && !Has(tag, '@')
  {
    var t := After(':', tag);
    AfterHas(tag, '@');
    HasAppend(name, t, '@');
    IndexAppend(name, t, ':');
    IndexAbsent(name, ':');
    assert t == "" || t[0] == ':';
    hide Has, After;
    assert Index(t, ':') == 0;
  }

  lemma AfterHas(tag: string, c: char)
    requires c != ':'
    ensures Has(After(':', tag), c) <==> Has(tag, c)
  {
    HasAppend(":", tag, c);
    assert [':'] + tag == ":" + tag && !Has(":", c);
    hide Has;
  }

  /** That is exactly when the text with the tag is read as ending in it. */
  lemma TagKept(front: string, tag: string)
    ensures OwnTag(front + After(':', tag), tag) <==> KeepsTag(front, tag)
  {
    var t, name := After(':', tag), ParsePath(front).rest;
    AfterHas(tag, '/');
    NameKeepsTag(name, tag);
    hide After, ParsePath, LeadingFilled, Has, Index;
    if TwoSlashes(front) {
      AddedAfterTwo(front, t);
    } else if Has(tag, '/') {
      AddedWithSlash(front, t);
    } else {
      AddedWithoutSlash(front, t);
    }
    hide TwoSlashes;
  }

  /**
    The last tag wins over an earlier one exactly if the image without tag and digest keeps the earlier
    tag: its leading segments are not empty, neither its name nor the tag holds a separator, and a slash in
    the tag comes after two others.
  */
  lemma LastTagWins(image: string, first: string, second: string)
    ensures Retag(Retag(image, first), second) == Retag(image, second) <==> KeepsTag(Bare(image), first)
  {
    var w, front := Retag(image, first), Bare(image);
    RetagIsBare(image, first);
    RetagIsBare(image, second);
    RetagIsBare(w, second);
    hide *;
    TagKept(front, first);
    SameEnd(Bare(w), front, After(':', second));
    if OwnTag(w, first) {
      OwnTagBare(w, front, first);
    }
    if Bare(w) == front {
      BareOwnTag(w, front, first);
    }
  }

  lemma SameEnd(a: string, b: string, end: string)
    ensures a + end == b + end <==> a == b
  {
    if a + end == b + end {
      assert |a| == |b| && (a + end)[..|a|] == (b + end)[..|a|];
    }
  }

  lemma LeadSlashes(registry: string, user: string, repo: string)
    requires PathReads(registry, user, repo)
    ensures TwoSlashes(Prefix(registry, user) + repo) <==> registry != "" && user != ""
  {
    if registry != "" && user != "" {
      assert (registry + "/" + (user + "/")) + repo == registry + "/" + (user + "/" + repo);
      IndexOfConcat(registry, '/', user + "/" + repo);
      IndexOfConcat(user, '/', repo);
    } else if registry != "" || user != "" {
      var first := if registry != "" then registry else user;
      assert Prefix(registry, user) == Lead(first) && Lead(first) + repo == first + "/" + repo;
      IndexOfConcat(first, '/', repo);
      IndexAbsent(repo, '/');
    } else {
      assert Prefix(registry, user) + repo == repo;
      IndexAbsent(repo, '/');
    }
  }

  /** The repository of an image without empty leading segments is read as part of the same path. */
  lemma BareReads(image: string)
    requires LeadingFilled(image)
    ensures var u := Parse(image);
            PathReads(u.registry, u.user, u.repo) && ParsePath(Bare(image)) == Path(u.registry, u.user, u.repo)
            && LeadingFilled(Bare(image))
  {
    PathShape(image);
    var u, name := Parse(image), ParsePath(image).rest;
    RepoEnds(name);
    assert Has(u.repo, '/') ==> Has(name, '/') by {
      assert forall i | 0 <= i < |u.repo| :: u.repo[i] == name[i];
    }
    hide ParsePath, ParseName, LeadingFilled, Has, Index;
    PathParses(u.registry, u.user, u.repo);
    PathPrinted(Bare(image));
    hide Prefix;
  }

  /**
    For an image without empty leading segments: if its name did not carry a tag together with a digest, and
    the earlier tag holds no at sign, and a slash only behind a registry and a user.
  */
  lemma FilledTagWins(image: string, first: string)
    requires LeadingFilled(image)
    ensures var u := Parse(image);
            KeepsTag(Bare(image), first) <==>
            !Has(u.repo, ':') && !Has(first, '@') && (Has(first, '/') ==> u.registry != "" && u.user != "")
  {
    var u := Parse(image);
    BareReads(image);
    RepoHasNoAt(image);
    LeadSlashes(u.registry, u.user, u.repo);
    hide Parse, ParsePath, PathReads, Prefix, LeadingFilled, Index, Has, TwoSlashes;
  }

  /** Where the last tag does not win: an image with a tag and a digest. */
  lemma TagAndDigest()
    ensures Retag(Retag("r:1@d", "2"), "3") != Retag("r:1@d", "3")
  {
    var name := ParsePath("r:1@d").rest;
    assert Index("r:1@d", '/') == 5;
    assert name[3] == '@' && name[1] == ':';
    assert Has(name, '@') && Index(name, ':') < Index(name, '@');
    hide Retag, Index;
    ColonKept("r:1@d");
    FilledTagWins("r:1@d", "2");
    LastTagWins("r:1@d", "2", "3");
  }
}
