/**
 What each form of Gemini address and reference is read as, in the letters of the address itself (RFC 3986,
 sections 3 and 5.2), and how `%` is decoded.
 */
module GeminiForms {
  import opened Wrappers
  import opened CText
  import opened Numbers
  import opened GeminiPath
  import opened GeminiUrl

  // ---- references ----

  /** A piece is what stands before the first mark, if a mark follows it. */
  lemma CutAt(p: string, q: string, c: char)
    requires c !in p && (q == "" || q[0] == c)
    ensures Before(p + q, c) == p && From(p + q, c) == q
  {
    BeforeAppend(p, q, c);
    FromAppend(p, q, c);
    assert p + "" == p;
  }

  /** A reference without a path keeps the base's path, and its query takes the place of the base's. */
  lemma QueryIsReplaced(b: Url, p: string, q: string, ref: string, hostlen: nat, pathlen: nat)
    requires hostlen >= 2 && pathlen >= 2 && QueryReference(ref)
    requires b.path == p + q && '?' !in p && (q == "" || q[0] == '?') && |b.path| < URLBUF
    ensures ResolveUrl(b, ref, hostlen, pathlen)
         == Some(Url(Take(b.host, hostlen - 1), b.port, Take(p + if ref == "" then q else ref, pathlen - 1)))
  {
    BeforeNone(ref, '#');
    CutAt(p, q, '?');
    hide ParseUrl, Contains, ResolvePath, Before, From;
    StartsAt(ref, "//", 0);
  }

  /** With room for it nothing is cut off. */
  lemma QueryFits(b: Url, p: string, q: string, ref: string, hostlen: nat, pathlen: nat)
    requires hostlen >= 2 && pathlen >= 2 && QueryReference(ref)
    requires b.path == p + q && '?' !in p && (q == "" || q[0] == '?') && |b.path| < URLBUF
    requires |b.host| < hostlen && |p| + |q| < pathlen && |p| + |ref| < pathlen
    ensures ref == "" ==> ResolveUrl(b, ref, hostlen, pathlen) == Some(b)
    ensures ref != "" ==> ResolveUrl(b, ref, hostlen, pathlen) == Some(Url(b.host, b.port, p + ref))
  {
    hide ResolveUrl, QueryReference;
    QueryIsReplaced(b, p, q, ref, hostlen, pathlen);
  }

  /** What follows a '#' makes no difference. */
  lemma FragmentIsDropped(b: Url, ref: string, fragment: string, hostlen: nat, pathlen: nat)
    requires hostlen >= 2 && pathlen >= 2 && '#' !in ref && |ref| < URLBUF
    ensures ResolveUrl(b, ref + ("#" + fragment), hostlen, pathlen) == ResolveUrl(b, ref, hostlen, pathlen)
  {
    var s := Take(ref + ("#" + fragment), URLBUF - 1);
    var rest := s[|ref|..];
    assert s == ref + rest && (rest == "" || rest[0] == '#');
    CutAt(ref, rest, '#');
    BeforeNone(ref, '#');
    hide ParseUrl, Contains, ResolvePath, Before, Starts;
  }

  lemma SlashesAreNoScheme(a: string)
    ensures Contains("//" + a, "://") == Contains(a, "://")
  {
    var ref := "//" + a;
    assert ref[1..] == "/" + a && ("/" + a)[1..] == a;
    StartsAt(ref, "://", 0);
    StartsAt("/" + a, "://", 0);
    hide Starts;
  }

  /** A reference that begins with two slashes is an address with the scheme left out. */
  lemma SchemeIsAdded(b: Url, a: string, hostlen: nat, pathlen: nat)
    requires hostlen >= 2 && pathlen >= 2 && '#' !in a && |a| + 2 < URLBUF && !Contains(a, "://")
    ensures ResolveUrl(b, "//" + a, hostlen, pathlen) == ParseUrl("gemini://" + a, hostlen, pathlen)
  {
    hide ParseUrl, ResolvePath, Before, Contains;
    SlashesAreNoScheme(a);
    BeforeNone("//" + a, '#');
    assert "gemini:" + ("//" + a) == "gemini://" + a;
  }

  /** An address with a scheme is parsed on its own, whatever the base. */
  lemma AbsoluteIsParsed(b: Url, head: string, rest: string, hostlen: nat, pathlen: nat)
    requires hostlen >= 2 && pathlen >= 2
    requires var ref := head + ("://" + rest); '#' !in ref && |ref| < URLBUF
    ensures var ref := head + ("://" + rest);
            ResolveUrl(b, ref, hostlen, pathlen) == ParseUrl(ref, hostlen, pathlen)
  {
    var ref := head + ("://" + rest);
    BeforeNone(ref, '#');
    ContainsAt(head, "://", rest);
    hide ParseUrl, ResolvePath, Before, Contains;
  }

  // ---- addresses ----

  /** `gemini://` with its letters in either case. */
  predicate Scheme(s: string) {
    |s| == 9 && s[6..] == "://" && forall i :: 0 <= i < 6 ==> s[i] == "gemini"[i] || s[i] == "GEMINI"[i]
  }

  lemma SchemeIsRead(s: string, rest: string)
    requires Scheme(s)
    ensures HasGeminiScheme(s + rest) && |s| == 9 && (s + rest)[9..] == rest
  {
    var u := s + rest;
    assert forall i :: 0 <= i < 6 ==> u[i] == "gemini"[i] || u[i] == "GEMINI"[i];
    assert u[6] == s[6..][0] && u[7] == s[6..][1] && u[8] == s[6..][2];
  }

  /** A host that the buffer holds. */
  predicate Host(h: string, hostlen: nat) {
    0 < |h| < hostlen && ':' !in h && '/' !in h && '?' !in h
  }

  /** What may follow host and port: a path, or a query, or nothing; room for it and the slash put before a query. */
  predicate PathPart(p: string, pathlen: nat) {
    (p == "" || p[0] == '/' || p[0] == '?') && '#' !in p && |p| + 1 < pathlen
  }

  /** A query alone gets the root path, and so does nothing at all. */
  function Rooted(p: string): string { if p == "" then "/" else if p[0] == '?' then "/" + p else p }

  /** The path text ends at the fragment. */
  lemma PathIsRead(p: string, fragment: string, pathlen: nat)
    requires pathlen >= 2 && PathPart(p, pathlen) && (fragment == "" || fragment[0] == '#')
    ensures PathText(p + fragment, pathlen) == Rooted(p)
  {
    var raw := RawPath(p + fragment, pathlen);
    if p == "" {
      assert p + fragment == fragment;
      if fragment == "" { BeforeNone("/", '#'); } else { assert raw != "" && raw[0] == '#'; }
    } else {
      var r := Rooted(p);
      assert raw == r + raw[|r|..] && (raw[|r|..] == "" || raw[|r|..][0] == '#');
      CutAt(r, raw[|r|..], '#');
    }
  }

  /** What the parser does with a host, without a port and with one. */
  lemma ParsePlain(url: string, h: string, rest: string, hostlen: nat, pathlen: nat)
    requires hostlen >= 2 && pathlen >= 2 && HasGeminiScheme(url) && |url| >= 9 && url[9..] == h + rest
    requires h != "" && h[0] != '/' && HostLen(h + rest, hostlen - 1) == |h| && At(rest, 0) != ':'
    ensures ParseUrl(url, hostlen, pathlen) == Some(Url(h, 1965, PathText(rest, pathlen)))
  {
    hide HasGeminiScheme, PathText, HostLen, Contains, StrToUl;
    var a := h + rest;
    assert a[|h|..] == rest && a[..|h|] == h && At(a, |h|) == At(rest, 0);
  }

  lemma ParseWithPort(url: string, h: string, num: string, hostlen: nat, pathlen: nat)
    requires hostlen >= 2 && pathlen >= 2 && HasGeminiScheme(url) && |url| >= 9 && url[9..] == h + (":" + num)
    requires h != "" && h[0] != '/' && HostLen(h + (":" + num), hostlen - 1) == |h|
    ensures var n := StrToUl(num, 10); var v := ToLong(n.value);
            ParseUrl(url, hostlen, pathlen)
            == if 1 <= v <= 65535 then Some(Url(h, v, PathText(n.rest, pathlen))) else None
  {
    hide HasGeminiScheme, PathText, HostLen, Contains, StrToUl, ToLong;
    var a := h + (":" + num);
    assert a[|h| + 1..] == num && a[..|h|] == h && At(a, |h|) == ':';
  }

  lemma HostIsRead(h: string, rest: string, hostlen: nat)
    requires Host(h, hostlen) && (rest == "" || rest[0] == ':' || rest[0] == '/' || rest[0] == '?')
    ensures HostLen(h + rest, hostlen - 1) == |h| && h[0] != '/'
  {
    assert forall i :: 0 <= i < |h| ==> HostChar(h[i]);
    hide HostChar, HostLen;
    if rest == "" {
      assert h + rest == h;
      HostAlone(h, hostlen - 1);
    } else {
      assert !HostChar(rest[0]) by { Delimiter(rest[0]); }
      HostRead(h, rest, hostlen - 1);
    }
  }

  lemma Delimiter(c: char)
    ensures HostChar(c) <==> c != ':' && c != '/' && c != '?'
  {
  }

  lemma {:induction false} HostAlone(h: string, room: nat)
    requires (forall i :: 0 <= i < |h| ==> HostChar(h[i])) && |h| <= room
    ensures HostLen(h, room) == |h|
  {
    if h != "" { HostAlone(h[1..], room - 1); }
  }

  /** Host, path and query of an address without a port; the port is 1965. */
  lemma AddressIsRead(s: string, h: string, p: string, fragment: string, hostlen: nat, pathlen: nat)
    requires hostlen >= 2 && pathlen >= 2 && Scheme(s) && Host(h, hostlen) && PathPart(p, pathlen)
    requires fragment == "" || (fragment[0] == '#' && p != "")
    ensures ParseUrl(s + (h + (p + fragment)), hostlen, pathlen) == Some(Url(h, 1965, Rooted(p)))
  {
    hide HasGeminiScheme, PathText, HostLen, ParseUrl, Rooted;
    var rest := p + fragment;
    SchemeIsRead(s, h + rest);
    PathIsRead(p, fragment, pathlen);
    assert rest != "" ==> rest[0] == p[0];
    HostIsRead(h, rest, hostlen);
    ParsePlain(s + (h + rest), h, rest, hostlen, pathlen);
  }

  /** An address with a port, which has to be one: a number from 1 to 65535, printed in decimal digits. */
  lemma PortIsRead(s: string, h: string, n: nat, p: string, fragment: string, hostlen: nat, pathlen: nat)
    requires hostlen >= 2 && pathlen >= 2 && Scheme(s) && Host(h, hostlen) && PathPart(p, pathlen)
    requires (fragment == "" || fragment[0] == '#') && n < 0x8000_0000
    ensures ParseUrl(s + (h + (":" + (PrintNat(n, 10) + (p + fragment)))), hostlen, pathlen)
         == if 1 <= n <= 65535 then Some(Url(h, n, Rooted(p))) else None
  {
    hide HasGeminiScheme, PathText, HostLen, ParseUrl, Rooted, Scheme, StrToUl, PrintNat;
    var num := PrintNat(n, 10) + (p + fragment);
    SchemeIsRead(s, h + (":" + num));
    HostIsRead(h, ":" + num, hostlen);
    ParseWithPort(s + (h + (":" + num)), h, num, hostlen, pathlen);
    NumberIsRead(n, p, fragment, pathlen);
    PathIsRead(p, fragment, pathlen);
  }

  lemma NumberIsRead(n: nat, p: string, fragment: string, pathlen: nat)
    requires PathPart(p, pathlen) && (fragment == "" || fragment[0] == '#') && n < 0x8000_0000
    ensures StrToUl(PrintNat(n, 10) + (p + fragment), 10) == Number(n, p + fragment)
  {
    hide StrToUl, PrintNat;
    var rest := p + fragment;
    ValueOfPrint(n, 10);
    assert rest != "" ==> rest[0] == '/' || rest[0] == '?' || rest[0] == '#';
    StrToUlReads(PrintNat(n, 10), rest, 10);
  }

  // ---- dot segments ----

  /** After a directory of plain names, the walk goes on from those names. */
  lemma AfterDirectory(st: seq<string>, rest: string)
    requires Names(st)
    ensures Stack(NormalDir(st) + rest) == Walk(rest, st)
  {
    hide Walk, Join;
    var dir := NormalDir(st);
    StackOfRender(st, true);
    EmptyWalk();
    assert dir == Render(st, true);
    assert DropSlash(dir) == dir[1..] && DropSlash(dir + rest) == dir[1..] + rest;
    WalkDir(dir[1..], rest, []);
    StackIs(dir);
    StackIs(dir + rest);
  }

  /** The names after one more segment: ".." takes one off, "." or nothing none, a name is added while there is room. */
  predicate Steps(st: seq<string>, seg: string, to: seq<string>) {
    || ((seg == "" || seg == ".") && to == st)
    || (seg == ".." && (if st == [] then to == [] else |st| == |to| + 1 && to <= st))
    || (Name(seg) && to == if |st| < 48 then st + [seg] else st)
  }

  lemma StepsIsPush(st: seq<string>, seg: string, to: seq<string>)
    requires Names(st) && Steps(st, seg, to)
    ensures Push(st, seg) == to && Names(to) && '/' !in seg && |seg| < SEG_MAX
  {
    assert seg == ".." || seg == "." || seg == "" || Name(seg);
    assert seg == ".." && st != [] ==> st[..|st| - 1] == to;
  }

  /** Behind a directory of plain names a segment can be worked off, whatever follows it. */
  lemma SegmentIsWorkedOff(st: seq<string>, seg: string, to: seq<string>, rest: string)
    requires Names(st) && Steps(st, seg, to)
    ensures Stack(NormalDir(st) + (seg + "/" + rest)) == Stack(NormalDir(to) + rest)
    ensures Stack(NormalDir(st) + seg) == to
  {
    hide Walk, NormalDir, Stack, Push, Steps;
    StepsIsPush(st, seg, to);
    AfterDirectory(st, seg + "/" + rest);
    AfterDirectory(st, seg);
    AfterDirectory(to, rest);
    if seg == "" {
      EmptyWalk();
      SlashIsSkipped(rest, st);
      EmptyPush(st);
      assert "" + "/" + rest == "/" + rest;
    } else {
      WalkOne(seg, rest, st);
    }
  }

  lemma SlashIsSkipped(rest: string, st: seq<string>)
    ensures Walk("/" + rest, st) == Walk(rest, st)
  {
    hide Push;
    var s := "/" + rest;
    assert Seg(s) == "" && s[0..] == s && AfterSeg(s) == rest;
    EmptyPush(st);
  }

  // ---- percent decoding ----

  /** Two digits of either case stand for one octet; a '%' without them, and every other character, for itself. */
  lemma EscapeIsOctet(a: char, b: char, i: nat, j: nat, t: string)
    requires i < 16 && j < 16
    requires (a == LOWER_HEX[i] || a == UPPER_HEX[i]) && (b == LOWER_HEX[j] || b == UPPER_HEX[j])
    ensures Decode("%" + [a, b] + t) == [(16 * i + j) as char] + Decode(t)
  {
    HexTable(a, i);
    HexTable(b, j);
    hide HexVal, IsEscape, Decode, LOWER_HEX, UPPER_HEX;
    EscapeShape(a, b, t);
    DecodeStep("%" + [a, b] + t);
  }

  lemma EscapeShape(a: char, b: char, t: string)
    ensures var s := "%" + [a, b] + t;
            s[1] == a && s[2] == b && s[3..] == t && (IsEscape(s) <==> HexVal(a) >= 0 && HexVal(b) >= 0)
  {
    hide HexVal;
    assert ("%" + [a, b] + t)[3..] == t;
  }

  lemma NoEscape(c: char, t: string)
    requires c == '%' ==> |t| < 2 || (t[0] !in LOWER_HEX && t[0] !in UPPER_HEX)
                          || (t[1] !in LOWER_HEX && t[1] !in UPPER_HEX)
    ensures Decode([c] + t) == [c] + Decode(t)
  {
    var s := [c] + t;
    NotEscape(s);
    hide IsEscape;
    assert s[1..] == t;
  }

  lemma NotEscape(s: string)
    requires s != ""
    requires s[0] == '%' ==> |s| < 3 || (s[1] !in LOWER_HEX && s[1] !in UPPER_HEX)
                             || (s[2] !in LOWER_HEX && s[2] !in UPPER_HEX)
    ensures !IsEscape(s)
  {
    HexTable(At(s, 1), 0);
    HexTable(At(s, 2), 0);
    hide HexVal, LOWER_HEX, UPPER_HEX;
    NulIsNoDigit();
  }

  lemma NulIsNoDigit()
    ensures HexVal('\0') < 0
  {
  }
}
