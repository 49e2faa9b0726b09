/**
 Gemini URLs: parsing, building and relative resolution (RFC 3986, section 5.3, the subset gemini.c keeps), and
 percent coding of query text (section 2.1).
 */
module GeminiUrl {
  import opened Wrappers
  import opened Bytes
  import opened CText
  import opened Numbers
  import opened GeminiPath

  const DEFAULT_PORT := 1965
  const URLBUF := 1400
  const PATHBUF := 1024

  datatype Url = Url(host: string, port: nat, path: string)

  // ---- string.h ----

  /** The text before the first `c`. */
  function Before(s: string, c: char): (r: string)
    ensures |r| <= |s| && c !in r
  {
    if s == "" || s[0] == c then "" else [s[0]] + Before(s[1..], c)
  }

  /** The text from the first `c` on. */
  function From(s: string, c: char): string {
    if s == "" || s[0] == c then s else From(s[1..], c)
  }

  lemma {:induction false} BeforeNone(s: string, c: char)
    requires c !in s
    ensures Before(s, c) == s && From(s, c) == ""
  {
    if s != "" {
      assert s[0] in s && s == [s[0]] + s[1..];
      BeforeNone(s[1..], c);
    }
  }

  // ---- parsing and building ----

  predicate HasGeminiScheme(s: string) {
    && Lower(At(s, 0)) == 'g' && Lower(At(s, 1)) == 'e' && Lower(At(s, 2)) == 'm' && Lower(At(s, 3)) == 'i'
    && Lower(At(s, 4)) == 'n' && Lower(At(s, 5)) == 'i' && At(s, 6) == ':' && At(s, 7) == '/' && At(s, 8) == '/'
  }

  predicate HostChar(c: char) { c != ':' && c != '/' && c != '?' }

  /** How many characters the host buffer takes. */
  function HostLen(s: string, room: nat): (n: nat)
    ensures n <= |s| && n <= room
  {
    if room == 0 || s == "" || !HostChar(s[0]) then 0 else 1 + HostLen(s[1..], room - 1)
  }

  /** The text before the fragment is cut off. */
  function RawPath(p: string, pathlen: nat): string
    requires pathlen >= 2
  {
    if p == "" then "/" else if p[0] == '?' then "/" + Take(p, pathlen - 2) else Take(p, pathlen - 1)
  }

  function PathText(p: string, pathlen: nat): string
    requires pathlen >= 2
  {
    var cut := Before(RawPath(p, pathlen), '#');
    if cut == "" then "/" else cut
  }

  /** `gem_parse_url` into buffers of `hostlen` and `pathlen`. */
  function ParseUrl(url: string, hostlen: nat, pathlen: nat): Option<Url>
    requires hostlen >= 2 && pathlen >= 2
  {
    if !HasGeminiScheme(url) && Contains(url, "://") then None
    else
      var p := if HasGeminiScheme(url) then url[9..] else url;
      var n := HostLen(p, hostlen - 1);
      if p == "" || p[0] == '/' || n == 0 then None
      else if At(p, n) == ':' then
        var num := StrToUl(p[n + 1..], 10);
        if ToLong(num.value) <= 0 || ToLong(num.value) > 65535 then None
        else Some(Url(p[..n], ToLong(num.value), PathText(num.rest, pathlen)))
      else Some(Url(p[..n], DEFAULT_PORT, PathText(p[n..], pathlen)))
  }

  const SCHEME := "gemini://"

  function PortText(port: nat): string { if port == DEFAULT_PORT then "" else ":" + PrintNat(port, 10) }

  /** The text `gem_build_url` prints. */
  function UrlText(u: Url): string { SCHEME + (u.host + (PortText(u.port) + u.path)) }

  /** What a well-formed Gemini address looks like. */
  predicate Printable(u: Url, hostlen: nat, pathlen: nat) {
    && 0 < |u.host| < hostlen && (forall i :: 0 <= i < |u.host| ==> HostChar(u.host[i]))
    && 1 <= u.port <= 65535
    && u.path != "" && u.path[0] == '/' && |u.path| < pathlen && '#' !in u.path
  }

  lemma {:induction false} HostRead(host: string, rest: string, room: nat)
    requires (forall i :: 0 <= i < |host| ==> HostChar(host[i])) && |host| <= room
    requires rest != "" && !HostChar(rest[0])
    ensures HostLen(host + rest, room) == |host|
  {
    if host == "" {
      assert host + rest == rest;
    } else {
      assert (host + rest)[1..] == host[1..] + rest;
      HostRead(host[1..], rest, room - 1);
    }
  }

  lemma PathRead(path: string, pathlen: nat)
    requires pathlen >= 2 && path != "" && path[0] == '/' && |path| < pathlen && '#' !in path
    ensures PathText(path, pathlen) == path
  {
    BeforeNone(path, '#');
  }

  lemma PortRead(port: nat, path: string)
    requires 1 <= port <= 65535 && path != "" && path[0] == '/'
    ensures StrToUl(PrintNat(port, 10) + path, 10) == Number(port, path)
  {
    hide StrToUl;
    ValueOfPrint(port, 10);
    StrToUlReads(PrintNat(port, 10), path, 10);
  }

  lemma SchemeCut(rest: string)
    ensures HasGeminiScheme(SCHEME + rest) && (SCHEME + rest)[9..] == rest
  {
    var s := SCHEME + rest;
    assert forall i :: 0 <= i < 9 ==> s[i] == SCHEME[i];
  }

  /** Parsing what was built gives back host, port and path. */
  lemma ParseOfBuild(u: Url, hostlen: nat, pathlen: nat)
    requires hostlen >= 2 && pathlen >= 2 && Printable(u, hostlen, pathlen)
    ensures ParseUrl(UrlText(u), hostlen, pathlen) == Some(u)
  {
    hide HasGeminiScheme, StrToUl, PrintNat, Contains, PathText, HostLen;
    var rest := PortText(u.port) + u.path;
    SchemeCut(u.host + rest);
    PathRead(u.path, pathlen);
    if u.port == DEFAULT_PORT {
      assert rest == u.path;
      HostRead(u.host, rest, hostlen - 1);
      assert (u.host + rest)[|u.host|..] == rest;
    } else {
      var tail := PrintNat(u.port, 10) + u.path;
      Assoc(":", PrintNat(u.port, 10), u.path);
      assert rest == ":" + tail;
      HostRead(u.host, rest, hostlen - 1);
      assert (u.host + rest)[|u.host| + 1..] == tail;
      PortRead(u.port, u.path);
    }
  }

  // ---- resolution ----

  /** The path part of a relative reference, resolved and put before its query. */
  function ResolvePath(basePath: string, ref: string, pathlen: nat): string
    requires pathlen >= 2
  {
    var refpath := Before(ref, '?');
    var query := Take(From(ref, '?'), URLBUF - 1);
    var merged := if At(refpath, 0) == '/' then refpath
                  else MergeWithin(Before(Take(basePath, URLBUF - 1), '?'), refpath, 2 * URLBUF);
    var path := Take(RenderWithin(Stack(merged), Trailing(merged), 2 * URLBUF), pathlen - 1);
    if |path| + |query| < pathlen then path + query else path
  }

  /** `gem_resolve_url`. */
  function ResolveUrl(b: Url, refIn: string, hostlen: nat, pathlen: nat): Option<Url>
    requires hostlen >= 2 && pathlen >= 2
  {
    var ref := Before(Take(refIn, URLBUF - 1), '#');
    if Contains(ref, "://") then ParseUrl(ref, hostlen, pathlen)
    else if Starts(ref, "//") then ParseUrl("gemini:" + ref, hostlen, pathlen)
    else Some(Url(Take(b.host, hostlen - 1), b.port,
                  if ref == "" then Take(b.path, pathlen - 1)
                  else if ref[0] == '?' then Take(Before(Take(b.path, URLBUF - 1), '?') + ref, pathlen - 1)
                  else ResolvePath(b.path, ref, pathlen)))
  }

  /** An absolute Gemini URL without '#' in its host resolves to itself against every base. */
  lemma ResolvePlainHost(b: Url, u: Url, hostlen: nat, pathlen: nat)
    requires hostlen >= 2 && pathlen >= 2 && Printable(u, hostlen, pathlen)
    requires '#' !in u.host && |UrlText(u)| < URLBUF
    ensures ResolveUrl(b, UrlText(u), hostlen, pathlen) == Some(u)
  {
    hide ParseUrl, Contains, ResolvePath, Before, PrintNat;
    var s := UrlText(u);
    NoHash(u);
    BeforeNone(s, '#');
    assert s == "gemini" + ("://" + (u.host + (PortText(u.port) + u.path)));
    ContainsAt("gemini", "://", u.host + (PortText(u.port) + u.path));
    ParseOfBuild(u, hostlen, pathlen);
  }

  /** What follows the scheme, if it is there. */
  function Address(url: string): string { if HasGeminiScheme(url) && |url| >= 9 then url[9..] else url }

  /** A parsed host is what the address begins with. */
  lemma HostIsPiece(url: string, hostlen: nat, pathlen: nat)
    requires hostlen >= 2 && pathlen >= 2
    ensures match ParseUrl(url, hostlen, pathlen)
            case None => true
            case Some(u) => u.host != "" && u.host <= Address(url)
  {
    hide HasGeminiScheme, Contains, StrToUl, PathText, HostLen;
    if HasGeminiScheme(url) { SchemeLength(url); }
  }

  /** No host before the first delimiter, or a port that is no port. */
  predicate BadAddress(a: string, hostlen: nat)
    requires hostlen >= 2
  {
    var n := HostLen(a, hostlen - 1);
    n == 0 || (At(a, n) == ':' && !(0 < ToLong(StrToUl(a[n + 1..], 10).value) <= 65535))
  }

  lemma ParseRefusedIff(url: string, hostlen: nat, pathlen: nat)
    requires hostlen >= 2 && pathlen >= 2
    ensures ParseUrl(url, hostlen, pathlen) == None
            <==> (!HasGeminiScheme(url) && Contains(url, "://")) || BadAddress(Address(url), hostlen)
  {
    hide HasGeminiScheme, Contains, StrToUl, PathText;
    if HasGeminiScheme(url) { SchemeLength(url); }
  }

  lemma {:induction false} BeforeAppend(a: string, b: string, c: char)
    requires c !in a
    ensures Before(a + b, c) == a + Before(b, c)
  {
    if a == "" {
      assert a + b == b;
    } else {
      assert (a + b)[1..] == a[1..] + b && a == [a[0]] + a[1..];
      BeforeAppend(a[1..], b, c);
      Assoc([a[0]], a[1..], Before(b, c));
    }
  }

  /** With '#' in the host the reference is cut there, and the host never comes back. */
  lemma ResolveCutHost(b: Url, u: Url, hostlen: nat, pathlen: nat)
    requires hostlen >= 2 && pathlen >= 2 && '#' in u.host && |UrlText(u)| < URLBUF
    ensures ResolveUrl(b, UrlText(u), hostlen, pathlen) != Some(u)
  {
    hide ParseUrl, Contains, ResolvePath, Before, PortText;
    var s, rest := UrlText(u), u.host + (PortText(u.port) + u.path);
    var cut := Before(rest, '#');
    BeforeAppend(SCHEME, rest, '#');
    assert SCHEME + cut == "gemini" + ("://" + cut);
    ContainsAt("gemini", "://", cut);
    HostIsPiece(SCHEME + cut, hostlen, pathlen);
    SchemeCut(cut);
  }

  /** An absolute Gemini URL resolves to itself, against every base, exactly when its host has no '#'. */
  lemma ResolveAbsolute(b: Url, u: Url, hostlen: nat, pathlen: nat)
    requires hostlen >= 2 && pathlen >= 2 && Printable(u, hostlen, pathlen) && |UrlText(u)| < URLBUF
    ensures ResolveUrl(b, UrlText(u), hostlen, pathlen) == Some(u) <==> '#' !in u.host
  {
    hide ResolveUrl, Printable, UrlText;
    if '#' in u.host { ResolveCutHost(b, u, hostlen, pathlen); } else { ResolvePlainHost(b, u, hostlen, pathlen); }
  }

  lemma {:induction false} DigitsHaveNoHash(s: string)
    requires AllDigits(s, 10)
    ensures '#' !in s
  {
    forall i | 0 <= i < |s| ensures s[i] != '#' { assert IsDigit(s[i], 10); }
  }

  lemma NoHash(u: Url)
    requires '#' !in u.host && '#' !in u.path
    ensures '#' !in UrlText(u)
  {
    ValueOfPrint(u.port, 10);
    DigitsHaveNoHash(PrintNat(u.port, 10));
  }

  // ---- what a resolved path looks like ----

  lemma {:induction false} SplitName(name: string, rest: string)
    requires '/' !in name && name != ""
    ensures Split(name + "/" + rest) == [name] + Split(rest)
    ensures Split(name) == [name]
  {
    var s := name + ("/" + rest);
    assert name + "/" + rest == s;
    PieceOfName(name, "/" + rest, |s|);
    assert s[..|name|] == name && s[|name| + 1..] == rest;
    PieceOfName(name, "", |name|);
    assert name + "" == name && name[..|name|] == name;
    assert [name] + [] == [name];
  }

  lemma {:induction false} SplitJoin(names: seq<string>)
    requires Names(names)
    ensures Split(Join(names, "/")) == names && (names != [] ==> Split(Join(names, "/") + "/") == names)
    decreases |names|
  {
    hide Split, Name;
    EmptyWalk();
    SplitEmpty();
    if names != [] {
      NamesTail(names);
      var name, more := names[0], names[1..];
      PushName([], name);
      if more == [] {
        SplitName(name, "");
        assert names == [name] && name + "/" + "" == name + "/" && [name] + [] == [name];
      } else {
        var tail := Join(more, "/");
        SplitJoin(more);
        SplitName(name, tail);
        SplitName(name, tail + "/");
        assert Join(names, "/") == name + "/" + tail && Join(names, "/") + "/" == name + "/" + (tail + "/");
        assert names == [name] + more;
      }
    }
  }

  lemma SplitEmpty()
    ensures Split("") == []
  {
  }

  /** The segments of a normalised path are exactly the stacked names: none empty, none "." or "..". */
  lemma NormalizedSegments(path: string)
    ensures Normalize(path)[0] == '/' && Split(Normalize(path)[1..]) == Stack(path) && Names(Stack(path))
  {
    hide Stack, Join, Split;
    StackHasNames(path);
    var st := Stack(path);
    SplitJoin(st);
    EmptyWalk();
    if st == [] {
      assert Normalize(path)[1..] == "";
    } else if Trailing(path) {
      assert Normalize(path)[1..] == Join(st, "/") + "/";
    } else {
      assert Normalize(path)[1..] == Join(st, "/");
    }
  }

  /** A reference resolved by its path: neither another URL, nor empty, nor only a query. */
  predicate PathReference(ref: string) {
    && ref != "" && |ref| < URLBUF && '#' !in ref && !Contains(ref, "://") && !Starts(ref, "//") && ref[0] != '?'
  }

  function Target(basePath: string, ref: string): string {
    if At(Before(ref, '?'), 0) == '/' then Before(ref, '?') else Merge(Before(basePath, '?'), Before(ref, '?'))
  }

  /**
   Path resolution: the result is the normalised target followed by the reference's own query, whenever both
   fit the path buffer.  With `NormalizedSegments` it is rooted and free of dot and empty segments.
   */
  lemma ResolveRelative(b: Url, ref: string, hostlen: nat, pathlen: nat)
    requires hostlen >= 2 && pathlen >= 2 && PathReference(ref)
    requires |b.host| < hostlen && |b.path| < PATHBUF && b.path != "" && b.path[0] == '/'
    requires |Normalize(Target(b.path, ref))| + |From(ref, '?')| < pathlen
    ensures ResolveUrl(b, ref, hostlen, pathlen)
         == Some(Url(b.host, b.port, Normalize(Target(b.path, ref)) + From(ref, '?')))
  {
    hide ParseUrl, Contains, Starts, Before, From, Stack, Merge, MergeWithin, RenderWithin, Render, Trailing;
    BeforeNone(ref, '#');
    FromLength(ref, '?');
    var t := Target(b.path, ref);
    TargetLength(b.path, ref);
    NormalizedLength(t);
    StackHasNames(t);
    RenderFits(Stack(t), Trailing(t), 2 * URLBUF);
    if At(Before(ref, '?'), 0) != '/' { MergeFits(Before(b.path, '?'), Before(ref, '?'), 2 * URLBUF); }
    assert ResolvePath(b.path, ref, pathlen) == Normalize(t) + From(ref, '?');
  }

  // ---- the same, by the plain rule for dot segments ----

  /** The segments a reference is resolved from: the base's directory, unless the reference is rooted. */
  function StartNames(basePath: string, ref: string): seq<string> {
    var base := Before(basePath, '?');
    if At(Before(ref, '?'), 0) == '/' then [] else FoldSegs(Split(DropSlash(base[..DirLen(base)])), [])
  }

  /** The reference's own segments. */
  function OwnSegments(ref: string): seq<string> {
    var path := Before(ref, '?');
    if At(path, 0) == '/' then Split(DropSlash(path)) else Split(path)
  }

  /** No segment is too long and the stack never too high, on the way through base and reference. */
  predicate Fits(basePath: string, ref: string) {
    var base := Before(basePath, '?');
    && (At(Before(ref, '?'), 0) != '/' ==> WithinLimits(Split(DropSlash(base[..DirLen(base)])), []))
    && WithinLimits(OwnSegments(ref), StartNames(basePath, ref))
  }

  lemma TargetIsPlainFold(basePath: string, ref: string)
    requires basePath != "" && basePath[0] == '/' && Fits(basePath, ref)
    ensures Stack(Target(basePath, ref)) == FoldSegs(OwnSegments(ref), StartNames(basePath, ref))
  {
    hide Before, FoldSegs, Split, WithinLimits, DirLen, Merge;
    var base, path := Before(basePath, '?'), Before(ref, '?');
    if At(path, 0) == '/' {
      WalkIsFold(DropSlash(path), []);
    } else {
      assert base != "" && base[0] == '/' by { BeforeHead(basePath, '?'); }
      MergeIsPlainFold(base, path);
    }
  }

  lemma BeforeHead(s: string, c: char)
    requires s != "" && s[0] != c
    ensures Before(s, c) != "" && Before(s, c)[0] == s[0]
  {
  }

  /**
   Path resolution by the standard's own terms: within the limits, the names of the result are the dot-segment
   rule applied to the base's directory and then to the reference, and the reference's query follows them.
   */
  lemma ResolvedByRule(b: Url, ref: string, hostlen: nat, pathlen: nat)
    requires hostlen >= 2 && pathlen >= 2 && PathReference(ref)
    requires |b.host| < hostlen && |b.path| < PATHBUF && b.path != "" && b.path[0] == '/' && Fits(b.path, ref)
    requires |Normalize(Target(b.path, ref))| + |From(ref, '?')| < pathlen
    ensures var names := FoldSegs(OwnSegments(ref), StartNames(b.path, ref));
            ResolveUrl(b, ref, hostlen, pathlen)
            == Some(Url(b.host, b.port, Render(names, Trailing(Target(b.path, ref))) + From(ref, '?')))
  {
    hide ResolveUrl, Target, Before, From, FoldSegs, OwnSegments, StartNames, Render, Trailing, Stack, Fits,
        PathReference;
    ResolveRelative(b, ref, hostlen, pathlen);
    TargetIsPlainFold(b.path, ref);
  }

  // ---- normalising the base first ----

  predicate SameAnswer(b: Url, o: Url, ref: string, hostlen: nat, pathlen: nat)
    requires hostlen >= 2 && pathlen >= 2
  {
    ResolveUrl(b, ref, hostlen, pathlen) == ResolveUrl(o, ref, hostlen, pathlen)
  }

  /** The resolved path and the reference's query fit. */
  predicate Room(b: Url, ref: string, pathlen: nat) {
    |Normalize(Target(b.path, ref))| + |From(ref, '?')| < pathlen
  }

  /** A base whose parts fit the buffers. */
  predicate ValidBase(b: Url, hostlen: nat) {
    |b.host| < hostlen && |b.path| < PATHBUF && b.path != "" && b.path[0] == '/'
  }

  function BasePath(b: Url): string { Before(b.path, '?') }

  /** The same base with its path normalised, its query kept. */
  function NormalBase(b: Url): Url { b.(path := Normalize(BasePath(b)) + From(b.path, '?')) }

  /** With the same directory names, every path reference is answered alike. */
  lemma PathAnswered(b: Url, o: Url, ref: string, hostlen: nat, pathlen: nat)
    requires hostlen >= 2 && pathlen >= 2 && ValidBase(b, hostlen) && ValidBase(o, hostlen)
    requires b.host == o.host && b.port == o.port && DirNames(BasePath(b)) == DirNames(BasePath(o))
    requires PathReference(ref) && Room(b, ref, pathlen) && Room(o, ref, pathlen)
    ensures SameAnswer(b, o, ref, hostlen, pathlen)
  {
    BeforeHead(b.path, '?');
    BeforeHead(o.path, '?');
    BeforeHead(ref, '?');
    hide ResolveUrl, Normalize, Merge, DirNames, Before, From;
    ResolveRelative(b, ref, hostlen, pathlen);
    ResolveRelative(o, ref, hostlen, pathlen);
    SameTargetIff(BasePath(b), BasePath(o));
    assert SameTarget(BasePath(b), BasePath(o), Before(ref, '?'));
  }

  lemma DotIsPath()
    ensures PathReference(".") && Before(".", '?') == "." && From(".", '?') == ""
  {
    assert "."[1..] == "" && !Contains("", "://") && "."[0] == '.';
    StartsAt(".", "://", 0);
    assert From(".", '?') == From("", '?') && Before(".", '?') == "." + Before("", '?');
  }

  /** Two bases answer every path reference alike, as far as there is room, exactly when their directories agree. */
  lemma SameAnswersIff(b: Url, o: Url, hostlen: nat, pathlen: nat)
    requires hostlen >= 2 && pathlen >= 2 && ValidBase(b, hostlen) && ValidBase(o, hostlen)
    requires b.host == o.host && b.port == o.port && Room(b, ".", pathlen) && Room(o, ".", pathlen)
    ensures (forall ref :: PathReference(ref) && Room(b, ref, pathlen) && Room(o, ref, pathlen)
                           ==> SameAnswer(b, o, ref, hostlen, pathlen))
            <==> DirNames(BasePath(b)) == DirNames(BasePath(o))
  {
    hide Room, DirNames, Normalize, Merge, PathReference, ResolveUrl, SameAnswer, ValidBase, BasePath, Target;
    if DirNames(BasePath(b)) == DirNames(BasePath(o)) {
      forall ref | PathReference(ref) && Room(b, ref, pathlen) && Room(o, ref, pathlen)
        ensures SameAnswer(b, o, ref, hostlen, pathlen)
      {
        PathAnswered(b, o, ref, hostlen, pathlen);
      }
    } else {
      DotIsPath();
      if SameAnswer(b, o, ".", hostlen, pathlen) { DotAnswer(b, o, hostlen, pathlen); }
    }
  }

  lemma DotAnswer(b: Url, o: Url, hostlen: nat, pathlen: nat)
    requires hostlen >= 2 && pathlen >= 2 && ValidBase(b, hostlen) && ValidBase(o, hostlen)
    requires Room(b, ".", pathlen) && Room(o, ".", pathlen) && SameAnswer(b, o, ".", hostlen, pathlen)
    ensures DirNames(BasePath(b)) == DirNames(BasePath(o))
  {
    DotIsPath();
    BeforeHead(b.path, '?');
    BeforeHead(o.path, '?');
    hide ResolveUrl, Normalize, Merge, DirNames, Before, From;
    ResolveRelative(b, ".", hostlen, pathlen);
    ResolveRelative(o, ".", hostlen, pathlen);
    var p, q := Normalize(Merge(BasePath(b), ".")), Normalize(Merge(BasePath(o), "."));
    assert p + "" == p && q + "" == q;
    DotTellsBases(BasePath(b), BasePath(o));
  }

  lemma {:induction false} BeforeThenFrom(s: string, c: char)
    ensures Before(s, c) + From(s, c) == s && (From(s, c) == "" || From(s, c)[0] == c)
  {
    if s != "" && s[0] != c {
      BeforeThenFrom(s[1..], c);
      Assoc([s[0]], Before(s[1..], c), From(s[1..], c));
      assert s == [s[0]] + s[1..];
    }
  }

  lemma NormalBaseParts(b: Url)
    requires b.path != "" && b.path[0] == '/'
    ensures var o := NormalBase(b);
            && o.path != "" && o.path[0] == '/'
            && BasePath(o) == Normalize(BasePath(b)) && From(o.path, '?') == From(b.path, '?')
  {
    hide Normalize;
    var p, q := Normalize(BasePath(b)), From(b.path, '?');
    NormalizedPath(BasePath(b));
    NormalizeLacks(BasePath(b), '?');
    BeforeThenFrom(b.path, '?');
    BeforeAppend(p, q, '?');
    FromAppend(p, q, '?');
    assert p + "" == p && (p + q)[0] == p[0];
  }

  lemma {:induction false} FromAppend(a: string, b: string, c: char)
    requires c !in a
    ensures From(a + b, c) == From(b, c)
  {
    if a == "" {
      assert a + b == b;
    } else {
      assert (a + b)[1..] == a[1..] + b;
      FromAppend(a[1..], b, c);
    }
  }

  /**
   Resolving path references against a base or against its normalised form agrees for all of them that have room
   exactly when the last segment of the base is empty, or a dot segment directly under the root, or a name that
   still fits the stack.
   */
  lemma BaseMayBeNormalized(b: Url, hostlen: nat, pathlen: nat)
    requires hostlen >= 2 && pathlen >= 2 && ValidBase(b, hostlen) && |NormalBase(b).path| < PATHBUF
    requires Room(b, ".", pathlen) && Room(NormalBase(b), ".", pathlen)
    requires |BasePath(b)[DirLen(BasePath(b))..]| < SEG_MAX
    ensures (forall ref :: PathReference(ref) && Room(b, ref, pathlen) && Room(NormalBase(b), ref, pathlen)
                           ==> SameAnswer(b, NormalBase(b), ref, hostlen, pathlen))
            <==> Interchangeable(BasePath(b)[DirLen(BasePath(b))..], DirNames(BasePath(b)))
  {
    BeforeHead(b.path, '?');
    NormalBaseParts(b);
    hide Room, DirNames, Normalize, PathReference, SameAnswer, Interchangeable, DirLen;
    SameAnswersIff(b, NormalBase(b), hostlen, pathlen);
    NormalDirNames(BasePath(b));
  }

  /** A reference without a path: empty, or only a query. */
  predicate QueryReference(ref: string) {
    (ref == "" || ref[0] == '?') && |ref| < URLBUF && '#' !in ref && !Contains(ref, "://")
  }

  /**
   Such a reference keeps the base's path as it is, so here the two agree exactly when that path is already normal.
   */
  lemma QueryAnsweredIff(b: Url, ref: string, hostlen: nat, pathlen: nat)
    requires hostlen >= 2 && pathlen >= 2 && ValidBase(b, hostlen) && |NormalBase(b).path| < PATHBUF
    requires QueryReference(ref)
    requires |b.path| + |ref| < pathlen && |NormalBase(b).path| + |ref| < pathlen
    ensures SameAnswer(b, NormalBase(b), ref, hostlen, pathlen) <==> BasePath(b) == Normalize(BasePath(b))
  {
    NormalBaseParts(b);
    BeforeThenFrom(b.path, '?');
    hide Normalize, Contains, Before, From, ResolvePath, ParseUrl;
    BeforeNone(ref, '#');
    StartsAt(ref, "//", 0);
    var o := NormalBase(b);
    var p, q := BasePath(b), Normalize(BasePath(b));
    SameHead(p, q, From(b.path, '?'));
    SameHead(p, q, ref);
  }

  /** Two texts followed by the same are the same. */
  lemma SameHead(p: string, q: string, t: string)
    ensures p + t == q + t <==> p == q
  {
    if p + t == q + t {
      assert |p| == |q| && (p + t)[..|p|] == p && (q + t)[..|q|] == q;
    }
  }

  // ---- references that are refused ----

  /**
   The references that are refused: a Gemini URL with a bad address; otherwise one with "://" anywhere before a
   fragment, be it only in its query, and one that begins with "//" and goes on with a bad address.
   */
  predicate Refused(r: string, hostlen: nat)
    requires hostlen >= 2
  {
    if HasGeminiScheme(r) then BadAddress(Address(r), hostlen)
    else Contains(r, "://") || (Starts(r, "//") && BadAddress(r[2..], hostlen))
  }

  lemma RefusedIff(b: Url, ref: string, hostlen: nat, pathlen: nat)
    requires hostlen >= 2 && pathlen >= 2 && |ref| < URLBUF
    ensures ResolveUrl(b, ref, hostlen, pathlen) == None <==> Refused(Before(ref, '#'), hostlen)
  {
    hide HasGeminiScheme, Contains, Before, ResolvePath, Starts, ParseUrl, BadAddress, Address;
    var r := Before(ref, '#');
    ParseRefusedIff(r, hostlen, pathlen);
    if HasGeminiScheme(r) {
      SchemeContains(r);
    } else if !Contains(r, "://") && Starts(r, "//") {
      SlashesCut(r);
      ParseRefusedIff("gemini:" + r, hostlen, pathlen);
    }
  }

  lemma SchemeContains(r: string)
    requires HasGeminiScheme(r)
    ensures Contains(r, "://")
  {
    SchemeLength(r);
    var head, rest := r[..6], r[9..];
    assert r == head + ("://" + rest);
    ContainsAt(head, "://", rest);
  }

  lemma SlashesCut(r: string)
    requires Starts(r, "//")
    ensures HasGeminiScheme("gemini:" + r) && Address("gemini:" + r) == r[2..]
  {
    assert r == "//" + r[2..];
    assert "gemini:" + r == SCHEME + r[2..];
    SchemeCut(r[2..]);
  }

  /** `a?u=http://x` is refused, though only its query looks like a URL. */
  lemma QueryRefused(b: Url, hostlen: nat, pathlen: nat)
    requires hostlen >= 2 && pathlen >= 2
    ensures ResolveUrl(b, "a?u=http" + ("://" + "x"), hostlen, pathlen) == None
  {
    var head := "a?u=http";
    assert '#' !in head && head[0] == 'a' && |head| == 8;
    ReferenceRefused(b, head, "x", hostlen, pathlen);
  }

  lemma ReferenceRefused(b: Url, head: string, rest: string, hostlen: nat, pathlen: nat)
    requires hostlen >= 2 && pathlen >= 2 && '#' !in head && '#' !in rest && |head| + |rest| + 3 < URLBUF
    requires head != "" && Lower(head[0]) != 'g'
    ensures ResolveUrl(b, head + ("://" + rest), hostlen, pathlen) == None
  {
    hide ResolveUrl, Contains, Before;
    var ref := head + ("://" + rest);
    BeforeNone(ref, '#');
    ContainsAt(head, "://", rest);
    assert At(ref, 0) == head[0] == ref[0];
    RefusedIff(b, ref, hostlen, pathlen);
  }

  lemma {:induction false} FromLength(s: string, c: char)
    ensures |From(s, c)| <= |s|
  {
    if s != "" { FromLength(s[1..], c); }
  }

  lemma TargetLength(basePath: string, ref: string)
    requires |basePath| < PATHBUF && |ref| < URLBUF
    ensures |Target(basePath, ref)| <= |basePath| + |ref| + 1 < 2500
  {
  }

  // ---- percent coding ----

  predicate Unreserved(c: char) {
    'A' <= c <= 'Z' || 'a' <= c <= 'z' || '0' <= c <= '9' || c == '-' || c == '.' || c == '_' || c == '~'
  }

  function UpperHex(v: nat): char
    requires v < 16
  {
    if v < 10 then (48 + v) as char else (55 + v) as char
  }

  predicate Octets(s: string) { forall i :: 0 <= i < |s| ==> s[i] as int < 256 }

  function EncodeChar(c: char): (r: string)
    requires c as int < 256
    ensures |r| == 1 || |r| == 3
  {
    if Unreserved(c) then [c] else ['%', UpperHex(c as int / 16), UpperHex(c as int % 16)]
  }

  function Encode(s: string): string
    requires Octets(s)
  {
    if s == "" then "" else EncodeChar(s[0]) + Encode(s[1..])
  }

  /** What one pass of the decoding loop emits and consumes. */
  predicate IsEscape(s: string) { At(s, 0) == '%' && HexVal(At(s, 1)) >= 0 && HexVal(At(s, 2)) >= 0 }

  function Decode(s: string): string {
    if s == "" then ""
    else if IsEscape(s) then [(HexVal(s[1]) * 16 + HexVal(s[2])) as char] + Decode(s[3..])
    else [s[0]] + Decode(s[1..])
  }

  lemma UpperHexVal(v: nat)
    requires v < 16
    ensures HexVal(UpperHex(v)) == v
  {
  }

  lemma DecodeEncodedChar(c: char, rest: string)
    requires c as int < 256
    ensures Decode(EncodeChar(c) + rest) == [c] + Decode(rest)
  {
    var s := EncodeChar(c) + rest;
    if Unreserved(c) {
      assert s[1..] == rest;
    } else {
      UpperHexVal(c as int / 16);
      UpperHexVal(c as int % 16);
      assert s[3..] == rest;
      assert IsEscape(s);
    }
  }

  /** Decoding undoes encoding for every octet string. */
  lemma {:induction false} DecodeEncode(s: string)
    requires Octets(s)
    ensures Decode(Encode(s)) == s
  {
    hide EncodeChar, Decode;
    if s == "" {
      DecodeEmpty();
    } else {
      DecodeEncodedChar(s[0], Encode(s[1..]));
      DecodeEncode(s[1..]);
      assert s == [s[0]] + s[1..];
    }
  }

  lemma DecodeEmpty()
    ensures Decode("") == ""
  {
  }

  /** Encoded text: unreserved characters and `%` with two upper-case hexadecimal digits. */
  predicate Encoded(s: string) {
    s == ""
    || (Unreserved(s[0]) && Encoded(s[1..]))
    || (s[0] == '%' && |s| >= 3 && UpperDigit(s[1]) && UpperDigit(s[2]) && Encoded(s[3..]))
  }

  predicate UpperDigit(c: char) { '0' <= c <= '9' || 'A' <= c <= 'F' }

  lemma {:induction false} EncodeAlphabet(s: string)
    requires Octets(s)
    ensures Encoded(Encode(s))
  {
    if s != "" {
      EncodeAlphabet(s[1..]);
      var e, rest := EncodeChar(s[0]), Encode(s[1..]);
      if |e| == 1 { assert (e + rest)[1..] == rest; } else { assert (e + rest)[3..] == rest; }
    }
  }

  // ---- the C functions ----

  lemma {:induction false} EncodeSnoc(s: string, c: char)
    requires Octets(s) && c as int < 256
    ensures Octets(s + [c]) && Encode(s + [c]) == Encode(s) + EncodeChar(c)
  {
    hide EncodeChar;
    if s == "" {
      assert s + [c] == [c] && [c][1..] == "";
      assert EncodeChar(c) + "" == EncodeChar(c) && "" + EncodeChar(c) == EncodeChar(c);
    } else {
      assert (s + [c])[1..] == s[1..] + [c];
      EncodeSnoc(s[1..], c);
      Assoc(EncodeChar(s[0]), Encode(s[1..]), EncodeChar(c));
    }
  }

  lemma {:induction false} EncodeMonotone(s: string, i: nat)
    requires Octets(s) && i <= |s|
    ensures |Encode(s[..i])| <= |Encode(s)|
    decreases |s| - i
  {
    if i == |s| {
      assert s[..i] == s;
    } else {
      assert s[..i + 1] == s[..i] + [s[i]];
      EncodeSnoc(s[..i], s[i]);
      EncodeMonotone(s, i + 1);
    }
  }

  /** `gem_url_encode`: the length, or -1 exactly when the encoded text and its terminator do not fit. */
  method UrlEncode(s: string, out: array<char>) returns (n: int)
    requires Octets(s)
    modifies out
    ensures n == if |Encode(s)| < out.Length then |Encode(s)| else -1
    ensures n != -1 ==> out[..n] == Encode(s) && out[n] == '\0'
  {
    hide EncodeChar, Encode;
    var i, o := 0, 0;
    assert Encode(s[..0]) == "" by { assert s[..0] == ""; EncodeEmpty(); }
    while i < |s|
      invariant 0 <= i <= |s| && 0 <= o <= out.Length
      invariant o == |Encode(s[..i])| && out[..o] == Encode(s[..i])
    {
      var e := EncodeChar(s[i]);
      assert s[..i + 1] == s[..i] + [s[i]];
      EncodeSnoc(s[..i], s[i]);
      EncodeMonotone(s, i + 1);
      if o >= out.Length - |e| { return -1; }
      forall k | 0 <= k < |e| { out[o + k] := e[k]; }
      assert out[..o + |e|] == Encode(s[..i]) + e;
      o := o + |e|;
      i := i + 1;
    }
    assert s[..i] == s;
    if o >= out.Length { return -1; }
    out[o] := '\0';
    n := o;
  }

  lemma EncodeEmpty()
    ensures Encode("") == ""
  {
  }

  /** `gem_url_decode`. */
  method UrlDecode(s: string, out: array<char>) returns (n: int)
    requires out.Length >= 1
    modifies out
    ensures n == if |Decode(s)| < out.Length then |Decode(s)| else -1
    ensures n != -1 ==> out[..n] == Decode(s) && out[n] == '\0'
  {
    hide Decode;
    var p, o := s, 0;
    while p != ""
      invariant 0 <= o < out.Length && out[..o] + Decode(p) == Decode(s)
      decreases |p|
    {
      DecodeStep(p);
      if o >= out.Length - 1 { return -1; }
      ghost var was := out[..o];
      var c, used := p[0], 1;
      if IsEscape(p) { c, used := (HexVal(p[1]) * 16 + HexVal(p[2])) as char, 3; }
      Assoc(was, [c], Decode(p[used..]));
      out[o] := c;
      assert out[..o + 1] == was + [c];
      o := o + 1;
      p := p[used..];
    }
    DecodeEmpty();
    assert out[..o] + "" == out[..o];
    out[o] := '\0';
    n := o;
  }

  lemma DecodeStep(s: string)
    requires s != ""
    ensures Decode(s) == if IsEscape(s) then [(HexVal(s[1]) * 16 + HexVal(s[2])) as char] + Decode(s[3..])
                         else [s[0]] + Decode(s[1..])
  {
  }

  /** Copies at most `room` characters of `s` to `out` from index `at`, stopping where `stop` says. */
  method CopyHost(s: string, out: array<char>, room: nat) returns (n: nat)
    requires room < out.Length
    modifies out
    ensures n == HostLen(s, room) && out[..n] == s[..n] && out[n] == '\0'
  {
    var p, left := s, room;
    n := 0;
    while left > 0 && p != "" && HostChar(p[0])
      invariant n + left == room && n + |p| == |s| && p == s[n..]
      invariant HostLen(s, room) == n + HostLen(p, left)
      invariant out[..n] == s[..n]
      decreases |p|
    {
      out[n] := p[0];
      p, left, n := p[1..], left - 1, n + 1;
    }
    out[n] := '\0';
  }

  lemma TakeStep(q: string, n: nat)
    ensures n == 0 || q == "" ==> Take(q, n) == ""
    ensures n > 0 && q != "" ==> Take(q, n) == [q[0]] + Take(q[1..], n - 1)
  {
  }

  lemma RawShape(p: string, base: string, pathlen: nat)
    requires pathlen >= 2 && base == if p == "" || p[0] == '?' then "/" else ""
    ensures base + Take(p, pathlen - 1 - |base|) == RawPath(p, pathlen)
  {
  }

  /** The copy loop of the path part of `gem_parse_url`. */
  method FillPath(p: string, out: array<char>) returns (pl: nat)
    requires out.Length >= 2
    modifies out
    ensures pl < out.Length && out[..pl] == RawPath(p, out.Length)
  {
    hide Take, RawPath;
    pl := 0;
    if p == "" || p[0] == '?' { out[0] := '/'; pl := 1; }
    ghost var base := out[..pl];
    assert base == if p == "" || p[0] == '?' then "/" else "";
    RawShape(p, base, out.Length);
    var q := p;
    while q != "" && pl < out.Length - 1
      invariant pl < out.Length && out[..pl] + Take(q, out.Length - 1 - pl) == RawPath(p, out.Length)
      decreases |q|
    {
      TakeStep(q, out.Length - 1 - pl);
      Assoc(out[..pl], [q[0]], Take(q[1..], out.Length - 1 - pl - 1));
      ghost var was := out[..pl];
      out[pl] := q[0];
      assert out[..pl + 1] == was + [q[0]];
      q, pl := q[1..], pl + 1;
    }
    TakeStep(q, out.Length - 1 - pl);
    assert out[..pl] + "" == out[..pl];
  }

  /** The path part of `gem_parse_url`: the copy loop, then the cut at the fragment. */
  method CopyPath(p: string, out: array<char>) returns (n: nat)
    requires out.Length >= 2
    modifies out
    ensures n < out.Length && out[..n] == PathText(p, out.Length) && out[n] == '\0'
  {
    hide RawPath, Before;
    var pl := FillPath(p, out);
    n := FindChar(out, pl, '#');
    if n == 0 {
      out[0] := '/';
      n := 1;
      assert out[..n] == "/";
    }
    out[n] := '\0';
  }

  /** `strchr` on the first `len` characters; `len` when there is none. */
  method FindChar(buf: array<char>, len: nat, c: char) returns (n: nat)
    requires len <= buf.Length
    ensures n <= len && buf[..n] == Before(buf[..len], c)
  {
    hide Before;
    ghost var raw := buf[..len];
    n := 0;
    while n < len && buf[n] != c
      invariant 0 <= n <= len && raw[..n] + Before(raw[n..], c) == Before(raw, c)
    {
      BeforeStep(raw[n..], c);
      DropDrop(raw, n, 1);
      Assoc(raw[..n], [raw[n]], Before(raw[n + 1..], c));
      assert raw[..n] + [raw[n]] == raw[..n + 1];
      n := n + 1;
    }
    BeforeStep(raw[n..], c);
    assert raw[..n] + "" == raw[..n] == buf[..n];
  }

  lemma BeforeStep(s: string, c: char)
    ensures Before(s, c) == if s == "" || s[0] == c then "" else [s[0]] + Before(s[1..], c)
  {
  }

  /** `gem_parse_url`. */
  method GemParseUrl(url: string, host: array<char>, path: array<char>) returns (ok: bool, hl: nat, port: nat, pl: nat)
    requires host.Length >= 2 && path.Length >= 2 && host != path
    modifies host, path
    ensures ok <==> ParseUrl(url, host.Length, path.Length).Some?
    ensures ok ==>
              && hl < host.Length && host[hl] == '\0' && pl < path.Length && path[pl] == '\0'
              && ParseUrl(url, host.Length, path.Length) == Some(Url(host[..hl], port, path[..pl]))
  {
    hide HasGeminiScheme, Contains, StrToUl, PathText, HostLen;
    ok, hl, port, pl := false, 0, DEFAULT_PORT, 0;
    var p := url;
    if HasGeminiScheme(url) {
      SchemeLength(url);
      p := url[9..];
    } else if Contains(url, "://") {
      return;
    }
    if p == "" || p[0] == '/' { return; }
    hl := CopyHost(p, host, host.Length - 1);
    if hl == 0 { return; }
    var rest := p[hl..];
    if rest != "" && rest[0] == ':' {
      assert rest[1..] == p[hl + 1..];
      var v, end := StrToUlPtr(rest[1..], 10);
      if ToLong(v) <= 0 || ToLong(v) > 65535 { return; }
      port := ToLong(v);
      rest := end;
    }
    pl := CopyPath(rest, path);
    ok := true;
  }

  /** `gem_build_url`: the length, or -1; a text that does not fit is reported, not kept. */
  method GemBuildUrl(u: Url, out: array<char>) returns (n: int)
    modifies out
    ensures n == if |UrlText(u)| < out.Length then |UrlText(u)| else -1
    ensures n != -1 ==> out[..n] == UrlText(u) && out[n] == '\0'
  {
    var text := if u.port == DEFAULT_PORT then SCHEME + (u.host + ("" + u.path))
                else SCHEME + (u.host + (":" + PrintNat(u.port, 10) + u.path));
    if |text| >= out.Length { return -1; }
    forall i | 0 <= i < |text| { out[i] := text[i]; }
    out[|text|] := '\0';
    assert out[..|text|] == text;
    n := |text|;
  }

  lemma SchemeLength(s: string)
    requires HasGeminiScheme(s)
    ensures |s| >= 9
  {
  }

  /** `gem_resolve_url`; the host and path buffers are returned as the text they hold. */
  method GemResolveUrl(b: Url, refIn: string, hostlen: nat, pathlen: nat) returns (r: Option<Url>)
    requires hostlen >= 2 && pathlen >= 2
    ensures r == ResolveUrl(b, refIn, hostlen, pathlen)
  {
    hide ParseUrl, Contains, Before, From, Stack, MergeWithin, RenderWithin;
    var ref := Before(Take(refIn, URLBUF - 1), '#');
    if Contains(ref, "://") {
      r := Reparse(ref, hostlen, pathlen);
      return;
    }
    if Starts(ref, "//") {
      r := Reparse("gemini:" + ref, hostlen, pathlen);
      return;
    }
    var path;
    if ref == "" {
      path := Take(b.path, pathlen - 1);
    } else if ref[0] == '?' {
      path := Take(Before(Take(b.path, URLBUF - 1), '?') + ref, pathlen - 1);
    } else {
      var refpath := Before(ref, '?');
      var merged := refpath;
      if At(refpath, 0) != '/' {
        var mbuf := new char[2 * URLBUF];
        var ml := MergePath(Before(Take(b.path, URLBUF - 1), '?'), refpath, mbuf);
        merged := mbuf[..ml];
      }
      var nbuf := new char[2 * URLBUF];
      var nl := NormalizePath(merged, nbuf);
      path := Take(nbuf[..nl], pathlen - 1);
      var query := Take(From(ref, '?'), URLBUF - 1);
      if |path| + |query| < pathlen { path := path + query; }
      assert path == ResolvePath(b.path, ref, pathlen);
    }
    r := Some(Url(Take(b.host, hostlen - 1), b.port, path));
  }

  method Reparse(url: string, hostlen: nat, pathlen: nat) returns (r: Option<Url>)
    requires hostlen >= 2 && pathlen >= 2
    ensures r == ParseUrl(url, hostlen, pathlen)
  {
    hide ParseUrl;
    var host := new char[hostlen];
    var path := new char[pathlen];
    var ok, hl, port, pl := GemParseUrl(url, host, path);
    r := if ok then Some(Url(host[..hl], port, path[..pl])) else None;
  }
}
