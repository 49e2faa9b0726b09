/**
 The in-place chunked decoder of mastodon.c and claude.c (RFC 9112, section 7.1): one buffer, a read cursor and
 a write cursor behind it.
 */
module Dechunk {
  import opened Wrappers
  import opened Bytes
  import opened CText
  import opened Numbers

  // ---- what the cursor sees ----

  /** `strchr(r, '\n')`. */
  function LineEnd(s: string): (r: Option<nat>)
    ensures r.Some? ==> r.value < |s|
  {
    if s == "" || s[0] == '\0' then None
    else if s[0] == '\n' then Some(0)
    else match LineEnd(s[1..]) case None => None case Some(k) => Some(k + 1)
  }

  function SkipEol(s: string): (r: string)
    ensures |r| <= |s|
  {
    if s != "" && (s[0] == '\r' || s[0] == '\n') then SkipEol(s[1..]) else s
  }

  function Size(s: string): int { ToLong(StrToUl(s, 16).value) }

  /** A chunk follows: a size line with a positive size. */
  predicate HasChunk(s: string) { LineEnd(s).Some? && Size(s) > 0 }

  /** Where the chunk data begins and ends. */
  function Begin(s: string): nat
    requires HasChunk(s)
  {
    LineEnd(s).value + 1
  }

  function End(s: string): nat
    requires HasChunk(s)
  {
    Begin(s) + Size(s)
  }

  /** The decoder never leaves the buffer: every announced chunk ends before the last character. */
  predicate InBuffer(s: string)
    decreases |s|
  {
    HasChunk(s) ==> End(s) < |s| && InBuffer(SkipEol(s[End(s)..]))
  }

  function Decode(s: string): string
    requires InBuffer(s)
    decreases |s|
  {
    if HasChunk(s) then s[Begin(s)..End(s)] + Decode(SkipEol(s[End(s)..])) else ""
  }

  // ---- the wire format ----

  datatype Chunk = Chunk(size: string, ext: string, data: string) {
    predicate Valid() {
      && size != "" && AllDigits(size, 16) && Value(size, 16, 0) == |data|
      && 0 < |data| < 0x8000_0000
      && ValidExt(ext)
    }

    /** The chunk, and the text after it. */
    function Wire(rest: string): string { Line(size, ext, data + ("\r\n" + rest)) }
  }

  /** A chunk extension: on the size line, and no part of the number. */
  predicate ValidExt(ext: string) {
    '\n' !in ext && '\0' !in ext && (ext == "" || (HexVal(ext[0]) < 0 && ext[0] != 'x' && ext[0] != 'X'))
  }

  function AfterNumber(ext: string, rest: string): string { ext + ("\r\n" + rest) }

  /** A size line, and the text after it. */
  function Line(size: string, ext: string, rest: string): string { size + AfterNumber(ext, rest) }

  function WireAll(chunks: seq<Chunk>, tail: string): string {
    if chunks == [] then tail else chunks[0].Wire(WireAll(chunks[1..], tail))
  }

  function DataOf(chunks: seq<Chunk>): string {
    if chunks == [] then "" else chunks[0].data + DataOf(chunks[1..])
  }

  /** The zero chunk with whatever follows it, trailers included. */
  ghost predicate IsLast(tail: string) {
    exists ext, rest :: ValidExt(ext) && rest != "" && tail == Line("0", ext, rest)
  }

  lemma {:induction false} LineEndAfter(line: string, rest: string)
    requires '\n' !in line && '\0' !in line
    ensures LineEnd(line + ("\n" + rest)) == Some(|line|)
  {
    var s := line + ("\n" + rest);
    if line != "" {
      assert line[0] in line;
      assert s[1..] == line[1..] + ("\n" + rest);
      LineEndAfter(line[1..], rest);
    }
  }

  lemma NoBreakInLine(size: string, ext: string)
    requires AllDigits(size, 16) && ValidExt(ext)
    ensures var line := size + (ext + "\r"); '\n' !in line && '\0' !in line
  {
    assert forall c :: c in size ==> IsDigit(c, 16);
    assert forall c :: c in size + (ext + "\r") ==> c in size || c in ext || c == '\r';
  }

  lemma LineShape(size: string, ext: string, rest: string)
    ensures Line(size, ext, rest) == size + AfterNumber(ext, rest)
    ensures Line(size, ext, rest) == (size + (ext + "\r")) + ("\n" + rest)
  {
    var a, b, c := ext, "\r", "\n" + rest;
    assert "\r\n" + rest == b + c;
    Assoc(a, b, c);
    Assoc(size, a + b, c);
  }

  /** The size line: its value, and where it ends. */
  lemma SizeLine(size: string, ext: string, rest: string)
    requires size != "" && AllDigits(size, 16) && Value(size, 16, 0) < 0x8000_0000 && ValidExt(ext)
    ensures Size(Line(size, ext, rest)) == Value(size, 16, 0)
    ensures LineEnd(Line(size, ext, rest)) == Some(|size| + |ext| + 1)
  {
    hide StrToUl, LineEnd, AllDigits, Value, Line, AfterNumber, ValidExt;
    LineShape(size, ext, rest);
    AfterSize(ext, rest);
    StrToUlReads(size, AfterNumber(ext, rest), 16);
    NoBreakInLine(size, ext);
    LineEndAfter(size + (ext + "\r"), rest);
  }

  lemma AfterSize(ext: string, rest: string)
    requires ValidExt(ext)
    ensures var more := AfterNumber(ext, rest);
            more != "" && !IsDigit(more[0], 16) && At(more, 0) != 'x' && At(more, 0) != 'X'
  {
    var more := AfterNumber(ext, rest);
    assert more[0] == if ext == "" then '\r' else ext[0];
  }

  lemma SkipEolOne(c: char, s: string)
    requires c == '\r' || c == '\n'
    ensures SkipEol([c] + s) == SkipEol(s)
  {
    assert ([c] + s)[1..] == s;
  }

  lemma SkipEolOver(s: string)
    requires s == "" || (s[0] != '\r' && s[0] != '\n')
    ensures SkipEol("\r\n" + s) == s
  {
    assert "\r\n" + s == ['\r'] + (['\n'] + s);
    SkipEolOne('\r', ['\n'] + s);
    SkipEolOne('\n', s);
  }

  /** One chunk on the wire is one step of the decoder. */
  lemma ChunkStep(c: Chunk, rest: string)
    requires c.Valid() && rest != "" && rest[0] != '\r' && rest[0] != '\n'
    ensures var s := c.Wire(rest);
            && HasChunk(s) && End(s) < |s|
            && s[Begin(s)..End(s)] == c.data && SkipEol(s[End(s)..]) == rest
  {
    hide Size, LineEnd, SkipEol, AllDigits, Value, ValidExt, Line;
    var tail := "\r\n" + rest;
    SizeLine(c.size, c.ext, c.data + tail);
    LineShape(c.size, c.ext, c.data + tail);
    var line := (c.size + (c.ext + "\r")) + "\n";
    Assoc(c.size + (c.ext + "\r"), "\n", c.data + tail);
    CutAfter(line, c.data, tail);
    SkipEolOver(rest);
  }

  lemma CutAfter(a: string, b: string, c: string)
    ensures var s := a + (b + c); s[|a|..|a| + |b|] == b && s[|a| + |b|..] == c
  {
  }

  lemma WireHead(chunks: seq<Chunk>, tail: string)
    requires (forall i :: 0 <= i < |chunks| ==> chunks[i].Valid()) && IsLast(tail)
    ensures var s := WireAll(chunks, tail); s != "" && s[0] != '\r' && s[0] != '\n'
  {
    if chunks != [] {
      assert chunks[0].Valid() && IsDigit(chunks[0].size[0], 16);
      assert WireAll(chunks, tail)[0] == chunks[0].size[0];
    }
  }

  lemma LastEnds(tail: string)
    requires IsLast(tail)
    ensures !HasChunk(tail)
  {
    var ext, rest :| ValidExt(ext) && rest != "" && tail == Line("0", ext, rest);
    assert "0"[1..] == "" && Value("0", 16, 0) == 0;
    SizeLine("0", ext, rest);
  }

  /**
   Decoding a chunked body gives the chunk data, joined, for every list of chunks, any extensions and any
   trailer; and the decoder stays inside the buffer.
   */
  lemma {:induction false} DecodeWire(chunks: seq<Chunk>, tail: string)
    requires (forall i :: 0 <= i < |chunks| ==> chunks[i].Valid()) && IsLast(tail)
    ensures InBuffer(WireAll(chunks, tail)) && Decode(WireAll(chunks, tail)) == DataOf(chunks)
  {
    if chunks == [] {
      LastEnds(tail);
    } else {
      var rest := WireAll(chunks[1..], tail);
      WireHead(chunks[1..], tail);
      ChunkStep(chunks[0], rest);
      DecodeWire(chunks[1..], tail);
    }
  }

  /** A size printed in lower-case hexadecimal makes a valid chunk. */
  lemma PrintedSizeIsValid(data: string, ext: string)
    requires 0 < |data| < 0x8000_0000 && ValidExt(ext)
    ensures Chunk(PrintNat(|data|, 16), ext, data).Valid()
  {
    ValueOfPrint(|data|, 16);
  }

  // ---- the C function ----

  /**
   `dechunk_in_place`.  The write cursor stays at or behind the read cursor, so the text still to be read is
   never touched.
   */
  method DechunkInPlace(body: array<char>) returns (len: nat)
    requires body.Length >= 1 && InBuffer(body[..])
    modifies body
    ensures len < body.Length && body[len] == '\0'
    ensures body[..len] == Decode(old(body[..]))
  {
    hide HasChunk, InBuffer, Decode, Size, LineEnd, SkipEol, StrToUl, ToLong;
    ghost var whole := Decode(body[..]);
    var r, w := 0, 0;
    assert body[0..] == body[..] && body[..0] + whole == whole;
    while true
      invariant 0 <= w <= r <= body.Length && w < body.Length
      invariant InBuffer(body[r..]) && body[..w] + Decode(body[r..]) == whole
      decreases body.Length - r
    {
      var text := body[r..];
      ghost var done := body[..w];
      DecodeStep(text);
      var sz := ReadSize(text);
      var nl := FindNewline(text);
      if nl == None || sz <= 0 { break; }
      var i := nl.value + 1;
      Assoc(done, text[i..i + sz], Decode(SkipEol(text[i + sz..])));
      r := TakeChunk(body, w, r, i, sz, text);
      w := w + sz;
    }
    assert body[..w] + "" == body[..w];
    body[w] := '\0';
    len := w;
  }

  lemma ChunkSlices(b: string, r: nat, i: nat, n: nat)
    requires r + i + n <= |b|
    ensures b[r..][i..i + n] == b[r + i..r + i + n] && b[r..][i + n..] == b[r + i + n..]
  {
  }

  method ReadSize(text: string) returns (sz: int)
    ensures sz == Size(text)
  {
    var v, end := StrToUlPtr(text, 16);
    sz := ToLong(v);
  }

  /** The data of a chunk moves to the front; the cursor passes it and the line breaks behind it. */
  method TakeChunk(body: array<char>, w: nat, from: nat, i: nat, sz: nat, ghost text: string) returns (r: nat)
    requires w <= from <= body.Length && text == body[from..] && i + sz <= |text|
    modifies body
    ensures from + i + sz <= r <= body.Length
    ensures body[..w + sz] == old(body[..w]) + text[i..i + sz] && body[r..] == SkipEol(text[i + sz..])
  {
    hide SkipEol;
    ghost var b := body[..];
    assert text == b[from..];
    ChunkSlices(b, from, i, sz);
    Move(body, w, from + i, sz);
    MovedParts(b, body[..], w, from + i, sz);
    assert b[..w] == old(body[..w]) && body[from + i + sz..] == body[..][from + i + sz..];
    r := SkipBreaks(body, from + i + sz);
  }

  /** `memmove(w, r, sz)` towards the front. */
  method Move(body: array<char>, w: nat, from: nat, sz: nat)
    requires w <= from && from + sz <= body.Length
    modifies body
    ensures Moved(old(body[..]), body[..], w, from, sz)
  {
    forall i | 0 <= i < sz { body[w + i] := body[from + i]; }
  }

  /** From `b` to `a`, `sz` characters were copied from `from` to `w`, and the others were left alone. */
  ghost predicate Moved(b: string, a: string, w: nat, from: nat, sz: nat)
    requires w <= from && from + sz <= |b| == |a|
  {
    && (forall k :: 0 <= k < w || w + sz <= k < |a| ==> a[k] == b[k])
    && (forall k :: w <= k < w + sz ==> a[k] == b[from - w + k])
  }

  lemma MovedParts(b: string, a: string, w: nat, from: nat, sz: nat)
    requires w <= from && from + sz <= |b| == |a| && Moved(b, a, w, from, sz)
    ensures a[..w + sz] == b[..w] + b[from..from + sz] && a[from + sz..] == b[from + sz..]
  {
    var head, n := b[..w] + b[from..from + sz], from + sz;
    forall j | 0 <= j < w + sz ensures a[j] == head[j] {
      if j >= w { assert head[j] == b[from..from + sz][j - w]; }
    }
    forall j | 0 <= j < |a| - n ensures a[n..][j] == b[n..][j] {
      assert a[n + j] == b[n + j];
    }
    assert a[..w + sz] == head;
  }

  method SkipBreaks(body: array<char>, from: nat) returns (r: nat)
    requires from <= body.Length
    ensures from <= r <= body.Length && body[r..] == SkipEol(body[from..])
  {
    r := from;
    while r < body.Length && (body[r] == '\r' || body[r] == '\n')
      invariant from <= r <= body.Length && SkipEol(body[r..]) == SkipEol(body[from..])
    {
      assert body[r..][1..] == body[r + 1..];
      r := r + 1;
    }
  }

  method FindNewline(s: string) returns (k: Option<nat>)
    ensures k == LineEnd(s)
  {
    var i := 0;
    while i < |s| && s[i] != '\0'
      invariant 0 <= i <= |s|
      invariant LineEnd(s) == match LineEnd(s[i..]) case None => None case Some(j) => Some(i + j)
    {
      if s[i] == '\n' { return Some(i); }
      DropDrop(s, i, 1);
      i := i + 1;
    }
    k := None;
  }

  lemma DecodeStep(s: string)
    requires InBuffer(s)
    ensures HasChunk(s) <==> LineEnd(s).Some? && Size(s) > 0
    ensures !HasChunk(s) ==> Decode(s) == ""
    ensures HasChunk(s) ==>
              var b, e := LineEnd(s).value + 1, LineEnd(s).value + 1 + Size(s);
              && e < |s| && InBuffer(SkipEol(s[e..]))
              && Decode(s) == s[b..e] + Decode(SkipEol(s[e..]))
  {
    hide Size, LineEnd, SkipEol;
  }
}
