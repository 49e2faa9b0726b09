/**
 Dot-segment removal and reference merging of gemini.c (RFC 3986, sections 5.2.3 and 5.2.4, by the code's own
 rule for trailing slashes): a stack of at most 48 segments of at most 255 characters.
 */
module GeminiPath {
  import opened Bytes
  import opened CText

  const MAX_SEGS := 48
  const SEG_MAX := 256

  // ---- the walk over a path ----

  /** How many characters the segment buffer takes from here. */
  function PieceLen(s: string, room: nat): (n: nat)
    ensures n <= |s| && n <= room
  {
    if room == 0 || s == "" || s[0] == '/' then 0 else 1 + PieceLen(s[1..], room - 1)
  }

  function Seg(s: string): string { s[..PieceLen(s, SEG_MAX - 1)] }

  function DropSlash(s: string): (r: string)
    ensures |r| <= |s|
  {
    if s != "" && s[0] == '/' then s[1..] else s
  }

  /** The text after the segment and its slash. */
  function AfterSeg(s: string): (r: string)
    requires s != ""
    ensures |r| < |s|
  {
    DropSlash(s[PieceLen(s, SEG_MAX - 1)..])
  }

  /** One segment: empty and "." are dropped, ".." pops, a name is pushed while there is room. */
  function Push(st: seq<string>, seg: string): seq<string> {
    if seg == "" || seg == "." then st
    else if seg == ".." then (if st == [] then st else st[..|st| - 1])
    else if |st| < MAX_SEGS then st + [seg]
    else st
  }

  function Walk(s: string, st: seq<string>): seq<string>
    decreases |s|
  {
    if s == "" then st else Walk(AfterSeg(s), Push(st, Seg(s)))
  }

  function Stack(path: string): seq<string> { Walk(DropSlash(path), []) }

  predicate Trailing(path: string) { |path| > 1 && path[|path| - 1] == '/' }

  function Render(st: seq<string>, trailing: bool): string {
    "/" + Join(st, "/") + (if trailing && st != [] then "/" else "")
  }

  function Normalize(path: string): string { Render(Stack(path), Trailing(path)) }

  // ---- what the stack holds ----

  /** A segment that stands for itself. */
  predicate Name(seg: string) {
    0 < |seg| < SEG_MAX && '/' !in seg && seg != "." && seg != ".."
  }

  predicate Names(st: seq<string>) {
    |st| <= MAX_SEGS && forall i :: 0 <= i < |st| ==> Name(st[i])
  }

  lemma {:induction false} PieceHasNoSlash(s: string, room: nat)
    ensures '/' !in s[..PieceLen(s, room)]
  {
    if room > 0 && s != "" && s[0] != '/' {
      PieceHasNoSlash(s[1..], room - 1);
      assert s[..PieceLen(s, room)] == [s[0]] + s[1..][..PieceLen(s[1..], room - 1)];
    }
  }

  lemma {:induction false} WalkKeepsNames(s: string, st: seq<string>)
    requires Names(st)
    ensures Names(Walk(s, st))
    decreases |s|
  {
    if s != "" {
      PieceHasNoSlash(s, SEG_MAX - 1);
      WalkKeepsNames(AfterSeg(s), Push(st, Seg(s)));
    }
  }

  // ---- walking over names ----

  lemma {:induction false} PieceOfName(name: string, rest: string, room: nat)
    requires '/' !in name && |name| <= room && (rest == "" || rest[0] == '/')
    ensures PieceLen(name + rest, room) == |name|
  {
    if name != "" {
      assert (name + rest)[1..] == name[1..] + rest;
      assert name[0] in name;
      PieceOfName(name[1..], rest, room - 1);
    } else {
      assert name + rest == rest;
    }
  }

  /** A short segment followed by a slash or by the end is walked over in one step. */
  lemma WalkOne(seg: string, rest: string, st: seq<string>)
    requires '/' !in seg && |seg| < SEG_MAX && seg != ""
    ensures Walk(seg + "/" + rest, st) == Walk(rest, Push(st, seg))
    ensures Walk(seg, st) == Push(st, seg)
  {
    hide Push;
    var s := seg + ("/" + rest);
    assert seg + "/" + rest == s;
    PieceOfName(seg, "/" + rest, SEG_MAX - 1);
    assert Seg(s) == seg && s[|seg|..] == "/" + rest;
    assert AfterSeg(s) == rest;
    PieceOfName(seg, "", SEG_MAX - 1);
    assert seg + "" == seg;
    assert Seg(seg) == seg && AfterSeg(seg) == "";
  }

  lemma NamesTail(names: seq<string>)
    requires Names(names) && names != []
    ensures Names(names[1..]) && Name(names[0])
  {
    forall i | 0 <= i < |names| - 1 ensures Name(names[1..][i]) { assert names[1..][i] == names[i + 1]; }
  }

  lemma {:induction false} WalkJoined(names: seq<string>, st: seq<string>)
    requires Names(names) && |st| + |names| <= MAX_SEGS && names != []
    ensures Walk(Join(names, "/") + "/", st) == Walk(Join(names, "/"), st) == st + names
    decreases |names|
  {
    hide Walk, Push, Name;
    var name, more := names[0], names[1..];
    NamesTail(names);
    PushName(st, name);
    if more == [] {
      assert names == [name];
      WalkOne(name, "", st);
      assert name + "/" + "" == name + "/";
      EmptyWalk();
    } else {
      var tail := Join(more, "/");
      WalkOne(name, tail, st);
      assert Join(names, "/") == name + "/" + tail;
      WalkOne(name, tail + "/", st);
      assert Join(names, "/") + "/" == name + "/" + (tail + "/");
      WalkJoined(more, st + [name]);
      Assoc(st, [name], more);
      assert names == [name] + more;
    }
  }

  lemma PushName(st: seq<string>, name: string)
    requires Name(name) && |st| < MAX_SEGS
    ensures Push(st, name) == st + [name] && '/' !in name && |name| < SEG_MAX && name != ""
  {
  }

  lemma {:induction false} JoinEnds(names: seq<string>)
    requires Names(names) && names != []
    ensures Join(names, "/") != "" && Join(names, "/")[0] != '/' && Join(names, "/")[|Join(names, "/")| - 1] != '/'
    decreases |names|
  {
    var name, more := names[0], names[1..];
    assert Name(name);
    assert name[0] in name && name[|name| - 1] in name;
    if |names| > 1 {
      NamesTail(names);
      JoinEnds(more);
    }
  }

  /** Printing a stack and reading it back is the identity. */
  lemma StackOfRender(st: seq<string>, trailing: bool)
    requires Names(st)
    ensures Stack(Render(st, trailing)) == st
    ensures Trailing(Render(st, trailing)) == (trailing && st != [])
  {
    hide Walk, Join;
    var r := Render(st, trailing);
    if st == [] {
      EmptyWalk();
      assert DropSlash(r) == "";
    } else {
      JoinEnds(st);
      WalkJoined(st, []);
      assert [] + st == st;
      if trailing { assert DropSlash(r) == Join(st, "/") + "/"; } else { assert DropSlash(r) == Join(st, "/"); }
    }
  }

  lemma EmptyWalk()
    ensures Join([], "/") == "" && forall st :: Walk("", st) == st
  {
  }

  // ---- the results ----

  /** For every input: at most 48 proper names, each without slash and none of them "." or "..". */
  lemma StackHasNames(path: string)
    ensures Names(Stack(path))
  {
    WalkKeepsNames(DropSlash(path), []);
  }

  /** For every input: the result is rooted, and reading it back gives the same names. */
  lemma NormalizedPath(path: string)
    ensures Normalize(path) != "" && Normalize(path)[0] == '/' && Names(Stack(Normalize(path)))
            && Stack(Normalize(path)) == Stack(path)
    ensures Trailing(Normalize(path)) == (Trailing(path) && Stack(path) != [])
  {
    StackHasNames(path);
    StackOfRender(Stack(path), Trailing(path));
  }

  lemma NormalizeIdempotent(path: string)
    ensures Normalize(Normalize(path)) == Normalize(path)
  {
    NormalizedPath(path);
  }

  /** Normalising brings in no character but the slash. */
  lemma NormalizeLacks(path: string, c: char)
    requires c !in path && c != '/'
    ensures c !in Normalize(path)
  {
    hide Walk, Join;
    WalkLacks(DropSlash(path), [], c);
    JoinLacks(Stack(path), c);
  }

  lemma {:induction false} WalkLacks(s: string, st: seq<string>, c: char)
    requires c !in s && forall i :: 0 <= i < |st| ==> c !in st[i]
    ensures forall i :: 0 <= i < |Walk(s, st)| ==> c !in Walk(s, st)[i]
    decreases |s|
  {
    if s != "" { WalkLacks(AfterSeg(s), Push(st, Seg(s)), c); }
  }

  lemma {:induction false} JoinLacks(st: seq<string>, c: char)
    requires c != '/' && forall i :: 0 <= i < |st| ==> c !in st[i]
    ensures c !in Join(st, "/")
    decreases |st|
  {
    if |st| > 1 {
      forall i | 0 <= i < |st| - 1 ensures c !in st[1..][i] { assert st[1..][i] == st[i + 1]; }
      JoinLacks(st[1..], c);
    }
  }

  // ---- the segment-by-segment reference ----

  /** The segments between slashes; a final slash adds none. */
  function Split(s: string): seq<string>
    decreases |s|
  {
    if s == "" then []
    else
      var n := PieceLen(s, |s|);
      [s[..n]] + (if n == |s| then [] else Split(s[n + 1..]))
  }

  /** The unlimited rule for one segment. */
  function PushAny(st: seq<string>, seg: string): seq<string> {
    if seg == "" || seg == "." then st
    else if seg == ".." then (if st == [] then st else st[..|st| - 1])
    else st + [seg]
  }

  function FoldSegs(segs: seq<string>, st: seq<string>): seq<string> {
    if segs == [] then st else FoldSegs(segs[1..], PushAny(st, segs[0]))
  }

  /** Every segment fits its buffer, and the stack never has more than 48 entries on the way. */
  predicate WithinLimits(segs: seq<string>, st: seq<string>) {
    segs == [] || (|segs[0]| < SEG_MAX && |PushAny(st, segs[0])| <= MAX_SEGS
        && WithinLimits(segs[1..], PushAny(st, segs[0])))
  }

  lemma {:induction false} PieceStops(s: string, room: nat)
    ensures var n := PieceLen(s, room); n == room || n == |s| || s[n] == '/'
  {
    if room > 0 && s != "" && s[0] != '/' { PieceStops(s[1..], room - 1); }
  }

  lemma {:induction false} PieceRooms(s: string, a: nat, b: nat)
    requires a >= b
    ensures PieceLen(s, a) <= b ==> PieceLen(s, b) == PieceLen(s, a)
    decreases |s|
  {
    if b > 0 && s != "" && s[0] != '/' { PieceRooms(s[1..], a - 1, b - 1); }
  }

  /** Within the limits the walk is the plain fold over the segments. */
  lemma {:induction false} WalkIsFold(s: string, st: seq<string>)
    requires WithinLimits(Split(s), st) && |st| <= MAX_SEGS
    ensures Walk(s, st) == FoldSegs(Split(s), st)
    decreases |s|
  {
    hide Push, PushAny, Walk, Split, FoldSegs, WithinLimits, AfterSeg, Seg;
    if s == "" {
      NothingToFold(st);
    } else {
      FirstSegment(s, st);
      var name, rest := Split(s)[0], AfterSeg(s);
      WalkStep(s, st);
      SamePush(st, name);
      WalkIsFold(rest, PushAny(st, name));
    }
  }

  lemma NothingToFold(st: seq<string>)
    ensures Walk("", st) == st == FoldSegs(Split(""), st)
  {
  }

  /** The first segment of the walk is the first between slashes, when it fits its buffer. */
  lemma FirstSegment(s: string, st: seq<string>)
    requires s != "" && WithinLimits(Split(s), st)
    ensures Split(s) != [] && Split(s)[0] == Seg(s) && Split(s)[1..] == Split(AfterSeg(s))
    ensures |PushAny(st, Seg(s))| <= MAX_SEGS && WithinLimits(Split(AfterSeg(s)), PushAny(st, Seg(s)))
    ensures FoldSegs(Split(s), st) == FoldSegs(Split(AfterSeg(s)), PushAny(st, Seg(s)))
  {
    hide Split, Seg, AfterSeg, PushAny, FoldSegs, WithinLimits;
    SplitStep(s);
    FoldStep(Split(s), st);
    SegIsFirst(s);
  }

  lemma SplitStep(s: string)
    requires s != ""
    ensures var n := PieceLen(s, |s|);
            Split(s) != [] && Split(s)[0] == s[..n] && Split(s)[1..] == Split(if n == |s| then "" else s[n + 1..])
  {
  }

  lemma FoldStep(segs: seq<string>, st: seq<string>)
    requires segs != [] && WithinLimits(segs, st)
    ensures |segs[0]| < SEG_MAX && |PushAny(st, segs[0])| <= MAX_SEGS && WithinLimits(segs[1..], PushAny(st, segs[0]))
    ensures FoldSegs(segs, st) == FoldSegs(segs[1..], PushAny(st, segs[0]))
  {
    hide PushAny;
  }

  lemma SegIsFirst(s: string)
    requires s != "" && PieceLen(s, |s|) < SEG_MAX
    ensures var n := PieceLen(s, |s|);
            Seg(s) == s[..n] && AfterSeg(s) == if n == |s| then "" else s[n + 1..]
  {
    hide PieceLen;
    if |s| >= SEG_MAX - 1 { PieceRooms(s, |s|, SEG_MAX - 1); } else { PieceRooms(s, SEG_MAX - 1, |s|); }
    PieceStops(s, |s|);
  }

  lemma SamePush(st: seq<string>, seg: string)
    requires |st| <= MAX_SEGS && |PushAny(st, seg)| <= MAX_SEGS
    ensures Push(st, seg) == PushAny(st, seg)
  {
  }

  // ---- merging ----

  /** The length of the directory part: up to and including the last slash. */
  function DirLen(base: string): (n: nat)
    ensures n <= |base|
    ensures n > 0 ==> base[n - 1] == '/'
    ensures '/' !in base[n..]
  {
    if base == "" then 0
    else if base[|base| - 1] == '/' then |base|
    else
      var n := DirLen(base[..|base| - 1]);
      assert base[n..] == base[..|base| - 1][n..] + [base[|base| - 1]];
      n
  }

  /** `gem_merge_path` with room for the result. */
  function Merge(base: string, ref: string): string {
    var n := DirLen(base);
    if n == 0 then "/" + ref else base[..n] + ref
  }

  /** A slash ends a segment whatever comes before it. */
  lemma {:induction false} WalkDir(dir: string, rest: string, st: seq<string>)
    requires dir == "" || dir[|dir| - 1] == '/'
    ensures Walk(dir + rest, st) == Walk(rest, Walk(dir, st))
    decreases |dir|
  {
    hide Push;
    if dir == "" {
      assert dir + rest == rest;
    } else {
      var n := PieceLen(dir, SEG_MAX - 1);
      PieceInDir(dir, rest, SEG_MAX - 1);
      assert Seg(dir + rest) == Seg(dir) by { assert (dir + rest)[..n] == dir[..n]; }
      assert (dir + rest)[n..] == dir[n..] + rest;
      assert AfterSeg(dir + rest) == AfterSeg(dir) + rest by {
        if dir[n] == '/' { assert (dir[n..] + rest)[1..] == dir[n..][1..] + rest; }
      }
      assert AfterSeg(dir) == "" || AfterSeg(dir)[|AfterSeg(dir)| - 1] == '/';
      WalkDir(AfterSeg(dir), rest, Push(st, Seg(dir)));
    }
  }

  lemma {:induction false} PieceInDir(dir: string, rest: string, room: nat)
    requires dir != "" && dir[|dir| - 1] == '/'
    ensures PieceLen(dir + rest, room) == PieceLen(dir, room) < |dir|
    decreases |dir|
  {
    if room > 0 && dir[0] != '/' {
      assert (dir + rest)[1..] == dir[1..] + rest;
      PieceInDir(dir[1..], rest, room - 1);
    }
  }

  lemma {:induction false} DirPositive(base: string)
    requires base != "" && base[0] == '/'
    ensures DirLen(base) > 0
    decreases |base|
  {
    if |base| > 1 && base[|base| - 1] != '/' { DirPositive(base[..|base| - 1]); }
  }

  /** A merged path is the directory of the base followed by the reference, segment by segment. */
  lemma MergeIsFold(base: string, ref: string)
    requires base != "" && base[0] == '/'
    ensures Stack(Merge(base, ref)) == Walk(ref, Stack(base[..DirLen(base)]))
  {
    hide Walk;
    var n := DirLen(base);
    DirPositive(base);
    var dir := base[..n];
    assert DropSlash(dir + ref) == dir[1..] + ref && DropSlash(dir) == dir[1..];
    WalkDir(dir[1..], ref, []);
  }

  /** Within the limits: the plain dot-segment rule over the base's directory, then over the reference. */
  lemma MergeIsPlainFold(base: string, ref: string)
    requires base != "" && base[0] == '/'
    requires WithinLimits(Split(DropSlash(base[..DirLen(base)])), [])
    requires WithinLimits(Split(ref), FoldSegs(Split(DropSlash(base[..DirLen(base)])), []))
    ensures Stack(Merge(base, ref)) == FoldSegs(Split(ref), FoldSegs(Split(DropSlash(base[..DirLen(base)])), []))
  {
    hide Walk, Split, FoldSegs, Merge, WithinLimits, DirLen;
    var dir := base[..DirLen(base)];
    StackHasNames(dir);
    WalkIsFold(DropSlash(dir), []);
    MergeIsFold(base, ref);
    WalkIsFold(ref, Stack(dir));
  }

  lemma {:induction false} DirOf(a: string, b: string)
    requires a != "" && a[|a| - 1] == '/' && '/' !in b
    ensures DirLen(a + b) == |a|
    decreases |b|
  {
    var s := a + b;
    if b == "" {
      assert s == a;
    } else {
      assert b[|b| - 1] in b;
      assert s[..|s| - 1] == a + b[..|b| - 1];
      DirOf(a, b[..|b| - 1]);
    }
  }

  /** The directory of a normalised base: its names up to the last slash. */
  lemma DirOfRender(st: seq<string>, name: string)
    requires Names(st) && '/' !in name
    ensures DirLen(NormalDir(st) + name) == |NormalDir(st)| && Stack(NormalDir(st)) == st
  {
    var dir := NormalDir(st);
    DirOf(dir, name);
    if st == [] {
      EmptyWalk();
    } else {
      StackOfRender(st, true);
      assert Render(st, true) == dir;
    }
  }

  /** The names a base contributes: those of its directory. */
  function DirNames(base: string): seq<string> { Stack(base[..DirLen(base)]) }

  /** Normalising a base takes its last name for a file, unless the base ends in a slash. */
  lemma DirNamesOfNormal(base: string)
    ensures var st := Stack(base);
            DirNames(Normalize(base)) == if Trailing(base) || st == [] then st else st[..|st| - 1]
  {
    hide Stack, Join, DirLen;
    var st := Stack(base);
    StackHasNames(base);
    EmptyWalk();
    var (dirs, last) := if Trailing(base) || st == [] then (st, "") else (st[..|st| - 1], st[|st| - 1]);
    if last != "" {
      assert Name(last) && Names(dirs);
      JoinSnoc(dirs, last, "/");
      assert st == dirs + [last];
    }
    assert Normalize(base) == NormalDir(dirs) + last;
    DirOfRender(dirs, last);
    assert (NormalDir(dirs) + last)[..|NormalDir(dirs)|] == NormalDir(dirs);
  }

  predicate SameTarget(base: string, other: string, ref: string) {
    Normalize(Merge(base, ref)) == Normalize(Merge(other, ref))
  }

  /** Merging "." already tells two bases apart. */
  lemma DotTellsBases(base: string, other: string)
    requires base != "" && base[0] == '/' && other != "" && other[0] == '/' && SameTarget(base, other, ".")
    ensures DirNames(base) == DirNames(other)
  {
    hide Stack, DirLen, Merge, DirNames;
    DotKeepsNames(base);
    DotKeepsNames(other);
    NormalizedPath(Merge(base, "."));
    NormalizedPath(Merge(other, "."));
  }

  /** Two bases give every merged reference the same normal form exactly when their directories hold the same names. */
  lemma SameTargetIff(base: string, other: string)
    requires base != "" && base[0] == '/' && other != "" && other[0] == '/'
    ensures (forall ref :: ref != "" ==> SameTarget(base, other, ref)) <==> DirNames(base) == DirNames(other)
  {
    hide Stack, Join, DirLen, Merge;
    if DirNames(base) == DirNames(other) {
      forall ref | ref != "" ensures SameTarget(base, other, ref) {
        MergeIsFold(base, ref);
        MergeIsFold(other, ref);
        MergeEnds(base, ref);
        MergeEnds(other, ref);
      }
    } else if SameTarget(base, other, ".") {
      DotTellsBases(base, other);
    }
  }

  lemma DotKeepsNames(base: string)
    requires base != "" && base[0] == '/'
    ensures Stack(Merge(base, ".")) == DirNames(base)
  {
    hide Stack, DirLen, Merge;
    MergeIsFold(base, ".");
    WalkOne(".", "", DirNames(base));
  }

  /** When a base whose last segment is `last`, after a directory of `names`, may be normalised first. */
  predicate Interchangeable(last: string, names: seq<string>) {
    if last == "." || last == ".." then names == [] else last == "" || |names| < MAX_SEGS
  }

  /**
   Merging with a base or with its normalised form gives the same normal path for every non-empty reference exactly
   when the last segment of the base is empty, or a dot segment directly under the root, or a name that still fits
   the stack.
   */
  lemma MergeNormalizedBase(base: string)
    requires base != "" && base[0] == '/' && |base[DirLen(base)..]| < SEG_MAX
    ensures (forall ref :: ref != "" ==> SameTarget(base, Normalize(base), ref))
            <==> Interchangeable(base[DirLen(base)..], DirNames(base))
  {
    hide DirNames, DirLen, SameTarget, Interchangeable;
    SameTargetIff(base, Normalize(base));
    NormalDirNames(base);
  }

  /** Normalising keeps the names of the directory under the same condition. */
  lemma NormalDirNames(base: string)
    requires base != "" && base[0] == '/' && |base[DirLen(base)..]| < SEG_MAX
    ensures DirNames(base) == DirNames(Normalize(base)) <==> Interchangeable(base[DirLen(base)..], DirNames(base))
  {
    hide Stack, DirLen, Push, Interchangeable, Normalize, Trailing;
    DirPositive(base);
    var last := base[DirLen(base)..];
    DirNamesOfNormal(base);
    BaseStack(base);
    LastSegment(base, DirLen(base));
    if last == "" {
      EmptyPush(DirNames(base));
      EmptyIsInterchangeable(DirNames(base));
      if base == "/" { RootStack(); }
    } else {
      StackHasNames(base[..DirLen(base)]);
      LastName(DirNames(base), last);
    }
  }

  lemma LastSegment(base: string, n: nat)
    requires base != "" && base[0] == '/' && n <= |base| && '/' !in base[n..] && (n > 0 ==> base[n - 1] == '/')
    ensures base[n..] == "" ==> Trailing(base) || base == "/"
    ensures base[n..] != "" ==> !Trailing(base)
  {
    var last := base[n..];
    if last != "" {
      assert last[|last| - 1] in last && last[|last| - 1] == base[|base| - 1];
    } else if |base| == 1 {
      assert base == "/";
    }
  }

  lemma EmptyIsInterchangeable(names: seq<string>)
    ensures Interchangeable("", names)
  {
  }

  /** Pushing a last segment and taking the top off again. */
  lemma LastName(st: seq<string>, last: string)
    requires last != "" && |st| <= MAX_SEGS
    ensures var full := Push(st, last);
            (if full == [] then full else full[..|full| - 1]) == st <==> Interchangeable(last, st)
  {
    if last != "." && last != ".." && |st| < MAX_SEGS { assert (st + [last])[..|st|] == st; }
  }

  lemma BaseStack(base: string)
    requires base != "" && base[0] == '/' && |base[DirLen(base)..]| < SEG_MAX && DirLen(base) > 0
    ensures Stack(base) == Push(Stack(base[..DirLen(base)]), base[DirLen(base)..])
  {
    hide DirLen, Walk, Push;
    DirSplits(base, DirLen(base));
  }

  /** A directory and a short last segment. */
  lemma DirSplits(base: string, n: nat)
    requires 0 < n <= |base| && base[0] == '/' && base[n - 1] == '/' && '/' !in base[n..] && |base[n..]| < SEG_MAX
    ensures Stack(base) == Push(Stack(base[..n]), base[n..])
  {
    hide Walk, Push;
    var dir, last := base[..n], base[n..];
    assert base == dir + last;
    assert DropSlash(base) == dir[1..] + last && DropSlash(dir) == dir[1..];
    hide DropSlash, Stack;
    WalkDir(dir[1..], last, []);
    StackIs(base);
    StackIs(dir);
    if last == "" { EmptyWalk(); EmptyPush(Stack(dir)); } else { WalkOne(last, "", Stack(dir)); }
  }

  lemma StackIs(path: string)
    ensures Stack(path) == Walk(DropSlash(path), [])
  {
  }

  lemma EmptyPush(st: seq<string>)
    ensures Push(st, "") == st
  {
  }

  /** A base that ends in a dot segment may differ: `x` against `/a/.` is `/a/x`, against its normal form `/x`. */
  lemma DotBaseDiffers()
    ensures Normalize(Merge("/a/.", "x")) == "/a/x" && Normalize(Merge(Normalize("/a/."), "x")) == "/x"
  {
    hide Walk, DirLen, Push;
    EmptyWalk();
    DirOf("/a/", ".");
    DirOf("/", "a");
    assert "/a/" + "." == "/a/." && "/" + "a" == "/a" && "/a/."[..3] == "/a/" && "/a"[..1] == "/";
    assert "/a/" + "x" == "/a/x" && "/" + "x" == "/x";
    PlainNames();
    WalkOne("a", ".", []);
    WalkOne(".", "", ["a"]);
    assert DropSlash("/a/.") == "a" + "/" + ".";
    assert Stack("/a/.") == ["a"];
    assert Normalize("/a/.") == "/" + "a" + "";
    WalkOne("a", "x", []);
    WalkOne("x", "", ["a"]);
    assert DropSlash("/a/x") == "a" + "/" + "x";
    assert Stack("/a/x") == ["a", "x"] && ["a", "x"][1..] == ["x"];
    WalkOne("x", "", []);
    assert DropSlash("/x") == "x" && Stack("/x") == ["x"];
    assert Normalize("/a/x") == "/" + "a/x" + "";
  }

  lemma PlainNames()
    ensures Push([], "a") == ["a"] && Push(["a"], ".") == ["a"] && Push(["a"], "x") == ["a", "x"]
            && Push([], "x") == ["x"]
  {
    assert "a"[0] != '.' && "x"[0] != '.';
  }

  function NormalDir(st: seq<string>): string { if st == [] then "/" else "/" + Join(st, "/") + "/" }

  lemma RootStack()
    ensures Stack("/") == []
  {
  }

  lemma MergeEnds(base: string, ref: string)
    requires base != "" && base[0] == '/' && ref != ""
    ensures Trailing(Merge(base, ref)) == (ref[|ref| - 1] == '/')
  {
  }

  // ---- writing into a buffer ----

  /** The output loop: separators and segments that no longer fit are left out. */
  function Emit(st: seq<string>, i: nat, acc: string, cap: nat): (r: string)
    requires i <= |st|
    ensures |r| >= |acc|
    decreases |st| - i
  {
    if i == |st| then acc
    else
      var a := if i > 0 && |acc| < cap - 1 then acc + "/" else acc;
      Emit(st, i + 1, if |a| + |st[i]| < cap then a + st[i] else a, cap)
  }

  function Close(a: string, trailing: bool, cap: nat): string {
    if trailing && |a| < cap - 1 && a != "" && a[|a| - 1] != '/' then a + "/" else a
  }

  function RenderWithin(st: seq<string>, trailing: bool, cap: nat): string
    requires cap >= 1
  {
    Take(Close(Emit(st, 0, "/", cap), trailing && st != [], cap), cap - 1)
  }

  lemma {:induction false} EmitFits(st: seq<string>, i: nat, acc: string, cap: nat)
    requires i <= |st| && acc == "/" + Join(st[..i], "/") && |Join(st, "/")| + 1 < cap
    ensures Emit(st, i, acc, cap) == "/" + Join(st, "/")
    decreases |st| - i
  {
    hide Join;
    if i == |st| {
      assert st[..i] == st;
    } else {
      assert st[..i + 1] == st[..i] + [st[i]];
      JoinSnoc(st[..i], st[i], "/");
      JoinGrows(st, i + 1, "/");
      EmptyWalk();
      assert st[..0] == [];
      var a := if i > 0 then acc + "/" else acc;
      assert a + st[i] == "/" + Join(st[..i + 1], "/");
      EmitFits(st, i + 1, a + st[i], cap);
    }
  }

  /** With room for it the buffer holds the whole normalised path. */
  lemma RenderFits(st: seq<string>, trailing: bool, cap: nat)
    requires Names(st) && |Render(st, trailing)| < cap
    ensures RenderWithin(st, trailing, cap) == Render(st, trailing)
  {
    hide Join, Emit;
    EmptyWalk();
    assert st[..0] == [];
    EmitFits(st, 0, "/", cap);
    if st != [] { JoinEnds(st); }
  }

  /** Normalising adds at most one slash per full segment buffer, and the leading and trailing ones. */
  lemma {:induction false} WalkLength(s: string, st: seq<string>)
    ensures |Join(Walk(s, st), "/")| <= |Join(st, "/")| + |s| + |s| / (SEG_MAX - 1) + 1
    decreases |s|
  {
    hide Push, Join;
    if s != "" {
      var seg, rest := Seg(s), AfterSeg(s);
      PushLength(st, seg);
      WalkLength(rest, Push(st, seg));
      PieceStops(s, SEG_MAX - 1);
      if |seg| + |rest| == |s| && rest != "" {
        assert |seg| == SEG_MAX - 1;
        assert |s| / (SEG_MAX - 1) == 1 + |rest| / (SEG_MAX - 1);
      } else if rest == "" {
      } else {
        assert |seg| + 1 + |rest| == |s|;
        DivMonotone(|rest|, |s|);
      }
    }
  }

  lemma DivMonotone(a: nat, b: nat)
    requires a <= b
    ensures a / (SEG_MAX - 1) <= b / (SEG_MAX - 1)
  {
  }

  lemma NormalizedLength(path: string)
    ensures |Normalize(path)| <= |path| + |path| / (SEG_MAX - 1) + 3
  {
    hide Walk, Join;
    EmptyWalk();
    WalkLength(DropSlash(path), []);
    DivMonotone(|DropSlash(path)|, |path|);
  }

  lemma PushLength(st: seq<string>, seg: string)
    ensures |Join(Push(st, seg), "/")| <= |Join(st, "/")| + |seg| + 1
  {
    if seg == ".." && st != [] {
      JoinGrows(st, |st| - 1, "/");
    } else {
      JoinSnoc(st, seg, "/");
    }
  }

  // ---- the C functions ----

  /** The segment copy loop. */
  method PieceRun(s: string, room: nat) returns (n: nat)
    ensures n == PieceLen(s, room)
  {
    var p, left := s, room;
    n := 0;
    while left > 0 && p != "" && p[0] != '/'
      invariant PieceLen(s, room) == n + PieceLen(p, left)
      decreases |p|
    {
      p, left, n := p[1..], left - 1, n + 1;
    }
  }

  /** `gem_normalize_path`. */
  method NormalizePath(path: string, out: array<char>) returns (len: nat)
    requires out.Length >= 1
    modifies out
    ensures len < out.Length && out[len] == '\0'
    ensures out[..len] == RenderWithin(Stack(path), Trailing(path), out.Length)
  {
    hide Emit, Walk, Push;
    var segs := new string[MAX_SEGS](_ => "");
    var nseg: nat := 0;
    var p := DropSlash(path);
    while p != ""
      invariant nseg <= MAX_SEGS
      invariant Walk(p, segs[..nseg]) == Stack(path)
      decreases |p|
    {
      var n := PieceRun(p, SEG_MAX - 1);
      var seg := p[..n];
      WalkStep(p, segs[..nseg]);
      nseg := PushSeg(segs, nseg, seg);
      p := DropSlash(p[n..]);
    }
    EmptyWalk();
    len := EmitPath(segs, nseg, Trailing(path), out);
  }

  lemma WalkStep(s: string, st: seq<string>)
    requires s != ""
    ensures Walk(s, st) == Walk(AfterSeg(s), Push(st, Seg(s)))
  {
  }

  method PushSeg(segs: array<string>, nseg: nat, seg: string) returns (n: nat)
    requires segs.Length == MAX_SEGS && nseg <= MAX_SEGS
    modifies segs
    ensures n <= MAX_SEGS && segs[..n] == Push(old(segs[..nseg]), seg)
  {
    n := nseg;
    if seg == "" {
    } else if seg == "." {
    } else if seg == ".." {
      if nseg > 0 {
        n := nseg - 1;
        assert segs[..n] == segs[..nseg][..n];
      }
    } else if nseg < MAX_SEGS {
      segs[nseg] := seg;
      n := nseg + 1;
      assert segs[..n] == old(segs[..nseg]) + [seg];
    }
  }

  /** The output half of `gem_normalize_path`. */
  method EmitPath(segs: array<string>, nseg: nat, trailing: bool, out: array<char>) returns (len: nat)
    requires nseg <= segs.Length && out.Length >= 1
    modifies out
    ensures len < out.Length && out[len] == '\0'
    ensures out[..len] == RenderWithin(segs[..nseg], trailing, out.Length)
  {
    hide Emit;
    ghost var st := segs[..nseg];
    out[0] := '/';
    var o := 1;
    assert out[..o] == "/";
    var i := 0;
    while i < nseg
      invariant 0 <= i <= nseg && 1 <= o <= out.Length
      invariant Emit(st, i, out[..o], out.Length) == Emit(st, 0, "/", out.Length)
      invariant segs[..nseg] == st
    {
      EmitStep(st, i, out[..o], out.Length);
      assert segs[i] == st[i];
      ghost var acc := out[..o];
      if i > 0 && o < out.Length - 1 {
        o := PutText(out, o, "/");
      }
      if o + |segs[i]| < out.Length {
        o := PutText(out, o, segs[i]);
      }
      i := i + 1;
    }
    EmitStep(st, i, out[..o], out.Length);
    if trailing && nseg > 0 && o < out.Length - 1 && out[o - 1] != '/' {
      ghost var a := out[..o];
      out[o] := '/';
      o := o + 1;
      assert out[..o] == a + "/";
    }
    ghost var a := out[..o];
    if o >= out.Length { o := out.Length - 1; }
    out[o] := '\0';
    assert out[..o] == Take(a, out.Length - 1);
    len := o;
  }

  lemma EmitStep(st: seq<string>, i: nat, acc: string, cap: nat)
    requires i <= |st|
    ensures Emit(st, i, acc, cap) ==
            if i == |st| then acc
            else
              var a := if i > 0 && |acc| < cap - 1 then acc + "/" else acc;
              Emit(st, i + 1, if |a| + |st[i]| < cap then a + st[i] else a, cap)
  {
  }

  /** `strrchr(base, '/')` plus one. */
  method DirRun(base: string) returns (n: nat)
    ensures n == DirLen(base)
  {
    n := |base|;
    while n > 0 && base[n - 1] != '/'
      invariant 0 <= n <= |base| && DirLen(base[..n]) == DirLen(base)
    {
      assert base[..n][..n - 1] == base[..n - 1];
      n := n - 1;
    }
    assert base[..|base|] == base;
  }

  /** What `gem_merge_path` leaves in a buffer of `cap`. */
  function MergeWithin(base: string, ref: string, cap: nat): string
    requires cap >= 1
  {
    var n := DirLen(base);
    var dir := if n == 0 then "/" else Take(base[..n], cap - 1);
    if |dir| + |ref| < cap then dir + ref else dir
  }

  lemma MergeFits(base: string, ref: string, cap: nat)
    requires |Merge(base, ref)| < cap
    ensures MergeWithin(base, ref, cap) == Merge(base, ref)
  {
  }

  /** `gem_merge_path`. */
  method MergePath(base: string, ref: string, out: array<char>) returns (len: nat)
    requires out.Length >= 2
    modifies out
    ensures len < out.Length && out[len] == '\0' && out[..len] == MergeWithin(base, ref, out.Length)
  {
    var dirlen := DirRun(base);
    var o := 0;
    if dirlen == 0 {
      out[0] := '/';
      o := 1;
      assert out[..o] == "/";
    } else {
      o := Min(dirlen, out.Length - 1);
      forall k | 0 <= k < o { out[k] := base[k]; }
      assert out[..o] == Take(base[..dirlen], out.Length - 1);
    }
    ghost var dir := out[..o];
    if o + |ref| < out.Length {
      forall k | 0 <= k < |ref| { out[o + k] := ref[k]; }
      o := o + |ref|;
      assert out[..o] == dir + ref;
    }
    out[o] := '\0';
    len := o;
  }
}
