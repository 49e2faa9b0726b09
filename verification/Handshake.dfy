/**
 The answer to a WebSocket handshake (RFC 6455, sections 1.3 and 4.1): the status line, and the accept header that
 must be the hash of the client's key.
 */
module Handshake {
  import opened Wrappers
  import opened Bytes
  import opened CText
  import opened Numbers
  import opened HashStream
  import Base64

  const FIRST_MAX := 64
  const LINE_MAX := 128
  const GUID := "258EAFA5-E914-47DA-95CA-C5AB0DC85B11"
  const PREFIX := "sec-websocket-accept:"

  /** What the relay must answer to a key. */
  function AcceptKey(key: string): string { Base64.Encode(Digest(Sha1, Octets(key + GUID))) }

  // ---- scanning the header ----

  predicate Break(c: char) { c == '\r' || c == '\n' }

  /** How many characters of a line the buffer takes. */
  function LineRun(s: string, room: nat): (n: nat)
    ensures n <= |s| && n <= room
  {
    if room == 0 || s == "" || Break(s[0]) then 0 else 1 + LineRun(s[1..], room - 1)
  }

  function SkipBreaks(s: string): (r: string)
    ensures |r| <= |s|
  {
    if s != "" && Break(s[0]) then SkipBreaks(s[1..]) else s
  }

  /** `ci_startswith`. */
  function StartsAnyCase(s: string, pat: string): bool {
    pat == "" || (Lower(At(s, 0)) == Lower(pat[0]) && StartsAnyCase(if s == "" then "" else s[1..], pat[1..]))
  }

  /** The value on a header line: what follows the name and the blanks after it. */
  function LineValue(line: string): string { if |line| < |PREFIX| then "" else SkipBlank(line[|PREFIX|..]) }

  /** The scan for the accept header; a line longer than the buffer is looked at in pieces. */
  function AcceptValue(s: string): Option<string>
    decreases |s|
  {
    if s == "" then None
    else
      var n := LineRun(s, LINE_MAX - 1);
      var line := CStr(s[..n]);
      if StartsAnyCase(line, PREFIX) then Some(LineValue(line))
      else if n == 0 then None
      else AcceptValue(SkipBreaks(s[n..]))
  }

  /** Whether the header block opens the connection. */
  predicate Opens(header: string, expected: string) {
    Contains(CStr(header[..LineRun(header, FIRST_MAX - 1)]), " 101") && AcceptValue(header) == Some(expected)
  }

  // ---- header blocks as lists of lines ----

  predicate ValidLine(line: string) { line != "" && '\r' !in line && '\n' !in line && '\0' !in line }

  predicate ValidLines(lines: seq<string>) { forall i :: 0 <= i < |lines| ==> ValidLine(lines[i]) }

  /** A line as the scan looks at it: in pieces that fill the buffer, and what is left. */
  function Pieces(line: string): (r: seq<string>)
    ensures r != []
  {
    if |line| < LINE_MAX then [line] else [line[..LINE_MAX - 1]] + Pieces(line[LINE_MAX - 1..])
  }

  function AllPieces(lines: seq<string>): seq<string> {
    if lines == [] then [] else Pieces(lines[0]) + AllPieces(lines[1..])
  }

  /** The block as it is sent: every line with CR LF, then an empty line. */
  function Block(lines: seq<string>): string {
    if lines == [] then "\r\n" else lines[0] + ("\r\n" + Block(lines[1..]))
  }

  /** The value of the first accept header among pieces. */
  function FirstValue(lines: seq<string>): Option<string> {
    if lines == [] then None
    else if StartsAnyCase(lines[0], PREFIX) then Some(LineValue(lines[0]))
    else FirstValue(lines[1..])
  }

  lemma {:induction false} LineRunOver(line: string, rest: string, room: nat)
    requires '\r' !in line && '\n' !in line && (rest == "" || Break(rest[0]))
    ensures LineRun(line + rest, room) == Min(|line|, room)
  {
    var s := line + rest;
    if line == "" {
      assert s == rest;
    } else if room > 0 {
      assert s[1..] == line[1..] + rest;
      assert line[0] in line;
      LineRunOver(line[1..], rest, room - 1);
    }
  }

  lemma BreaksOver(s: string)
    requires s == "" || !Break(s[0])
    ensures SkipBreaks("\r\n" + s) == s
  {
    assert ("\r\n" + s)[1..] == "\n" + s && ("\n" + s)[1..] == s;
    assert SkipBreaks("\n" + s) == SkipBreaks(s) == s;
  }

  lemma EmptyLine()
    ensures AcceptValue("\r\n") == None && AcceptValue("") == None && SkipBreaks("\r\n" + "\r\n") == ""
  {
    assert CStr("\r\n"[..0]) == "";
    assert Lower('\0') != Lower(PREFIX[0]);
    var s := "\r\n" + "\r\n";
    assert s[1..][1..][1..] == "\n" && "\n"[1..] == "";
  }

  lemma {:induction false} FirstValueAppend(a: seq<string>, b: seq<string>)
    ensures FirstValue(a + b) == if FirstValue(a).Some? then FirstValue(a) else FirstValue(b)
  {
    hide StartsAnyCase, LineValue;
    if a == [] {
      assert a + b == b;
    } else {
      assert (a + b)[1..] == a[1..] + b;
      FirstValueAppend(a[1..], b);
    }
  }

  /** One pass over a piece of a line. */
  lemma PieceScan(piece: string, rest: string)
    requires ValidLine(piece) && |piece| < LINE_MAX && (|piece| == LINE_MAX - 1 || (rest != "" && Break(rest[0])))
    ensures AcceptValue(piece + rest)
         == if StartsAnyCase(piece, PREFIX) then Some(LineValue(piece)) else AcceptValue(SkipBreaks(rest))
  {
    hide StartsAnyCase, LineValue, LineRun, SkipBreaks, CStr;
    var s := piece + rest;
    PieceRun(piece, rest, LINE_MAX - 1);
    CStrOfNulFree(piece);
    assert s[..|piece|] == piece && s[|piece|..] == rest;
  }

  lemma {:induction false} PieceRun(piece: string, rest: string, room: nat)
    requires '\r' !in piece && '\n' !in piece && |piece| <= room
    requires |piece| == room || (rest != "" && Break(rest[0]))
    ensures LineRun(piece + rest, room) == |piece|
  {
    if piece == "" {
      assert piece + rest == rest;
    } else {
      assert (piece + rest)[1..] == piece[1..] + rest && piece[0] in piece;
      PieceRun(piece[1..], rest, room - 1);
    }
  }

  lemma {:induction false} LineScan(line: string, more: string)
    requires ValidLine(line)
    ensures AcceptValue(line + ("\r\n" + more))
         == if FirstValue(Pieces(line)).Some? then FirstValue(Pieces(line)) else AcceptValue(SkipBreaks("\r\n" + more))
    decreases |line|
  {
    hide StartsAnyCase, LineValue, AcceptValue, SkipBreaks;
    var rest := "\r\n" + more;
    if |line| < LINE_MAX {
      PieceScan(line, rest);
      assert FirstValue([line][1..]) == None;
    } else {
      var piece, left := line[..LINE_MAX - 1], line[LINE_MAX - 1..];
      assert line == piece + left;
      Assoc(piece, left, rest);
      PieceScan(piece, left + rest);
      assert left[0] in left && (left + rest)[0] == left[0];
      NoBreakToSkip(left + rest);
      LineScan(left, more);
      assert Pieces(line)[1..] == Pieces(left);
    }
  }

  lemma NoBreakToSkip(s: string)
    requires s == "" || !Break(s[0])
    ensures SkipBreaks(s) == s
  {
  }

  /** For lines of any length the scan finds the value of the first piece that begins like an accept header. */
  lemma {:induction false} ValueFound(lines: seq<string>)
    requires ValidLines(lines)
    ensures AcceptValue(Block(lines)) == FirstValue(AllPieces(lines))
  {
    hide StartsAnyCase, LineValue, AcceptValue, SkipBreaks, Pieces, FirstValue;
    EmptyLine();
    NoPieces();
    if lines != [] {
      var more := Block(lines[1..]);
      assert ValidLine(lines[0]) && ValidLines(lines[1..]);
      LineScan(lines[0], more);
      FirstValueAppend(Pieces(lines[0]), AllPieces(lines[1..]));
      ValueFound(lines[1..]);
      if lines[1..] == [] {
        assert more == "\r\n";
      } else {
        var next := lines[1];
        assert ValidLine(next);
        assert next[0] in next && more[0] == next[0];
        BreaksOver(more);
      }
    }
  }

  lemma NoPieces()
    ensures FirstValue([]) == None
  {
  }

  /** Lines that fit the buffer are their own pieces. */
  lemma {:induction false} ShortLines(lines: seq<string>)
    requires forall i :: 0 <= i < |lines| ==> |lines[i]| < LINE_MAX
    ensures AllPieces(lines) == lines
  {
    if lines != [] {
      ShortLines(lines[1..]);
      assert [lines[0]] + lines[1..] == lines;
    }
  }

  /** A long line whose second piece begins like an accept header is taken for one. */
  lemma LaterPieceTaken(head: string, value: string)
    requires ValidLine(head) && |head| == LINE_MAX - 1 && !StartsAnyCase(head, PREFIX)
    requires '\r' !in value && '\n' !in value && '\0' !in value && |PREFIX + value| < LINE_MAX
    ensures AcceptValue(Block([head + (PREFIX + value)])) == Some(LineValue(PREFIX + value))
  {
    var line := head + (PREFIX + value);
    NoControls();
    assert ValidLine(line);
    ValueFound([line]);
    hide StartsAnyCase, LineValue, AcceptValue, Block;
    assert line[..LINE_MAX - 1] == head && line[LINE_MAX - 1..] == PREFIX + value;
    assert Pieces(line) == [head] + [PREFIX + value];
    assert AllPieces([line]) == Pieces(line) + AllPieces([line][1..]) == Pieces(line);
    assert SameLetters(PREFIX, PREFIX);
    SameStart(PREFIX, PREFIX, value);
    OtherLines(Pieces(line), 1);
  }

  lemma NoControls()
    ensures '\r' !in PREFIX && '\n' !in PREFIX && '\0' !in PREFIX
  {
  }

  /**
   An answer opens the connection exactly when its first line says 101 and the first accept header among its pieces
   has the expected value.
   */
  lemma OpensIff(lines: seq<string>, expected: string)
    requires ValidLines(lines) && lines != []
    ensures Opens(Block(lines), expected)
            <==> Contains(Take(lines[0], FIRST_MAX - 1), " 101") && FirstValue(AllPieces(lines)) == Some(expected)
  {
    hide LineRun, Contains, AcceptValue, FirstValue, AllPieces, CStr;
    ValueFound(lines);
    assert ValidLine(lines[0]);
    var rest := "\r\n" + Block(lines[1..]);
    LineRunOver(lines[0], rest, FIRST_MAX - 1);
    var t := Take(lines[0], FIRST_MAX - 1);
    assert Block(lines)[..|t|] == t;
    CStrOfNulFree(t);
  }

  lemma {:induction false} OtherLines(lines: seq<string>, i: nat)
    requires i < |lines| && StartsAnyCase(lines[i], PREFIX)
    requires forall k :: 0 <= k < i ==> !StartsAnyCase(lines[k], PREFIX)
    ensures FirstValue(lines) == Some(LineValue(lines[i]))
  {
    hide StartsAnyCase, LineValue;
    if i > 0 { OtherLines(lines[1..], i - 1); }
  }

  /** The same letters, in any case. */
  predicate SameLetters(a: string, b: string) { |a| == |b| && forall k :: 0 <= k < |a| ==> Lower(a[k]) == Lower(b[k]) }

  lemma {:induction false} SameStart(name: string, pat: string, value: string)
    requires SameLetters(name, pat)
    ensures StartsAnyCase(name + value, pat)
  {
    hide Lower;
    if name != "" {
      assert (name + value)[1..] == name[1..] + value && At(name + value, 0) == name[0];
      SameStart(name[1..], pat[1..], value);
    }
  }

  /**
   A 101 answer with an accept header, in any case and with any blanks before its value, opens the connection
   exactly when that value is the key's.
   */
  lemma RightAnswerOpens(lines: seq<string>, i: nat, name: string, blanks: string, value: string, key: string)
    requires ValidLines(lines) && lines != [] && i < |AllPieces(lines)| && SameLetters(name, PREFIX)
    requires AllPieces(lines)[i] == name + (blanks + value)
    requires forall k :: 0 <= k < i ==> !StartsAnyCase(AllPieces(lines)[k], PREFIX)
    requires OnlyBlanks(blanks) && (value == "" || (value[0] != ' ' && value[0] != '\t'))
    requires Contains(Take(lines[0], FIRST_MAX - 1), " 101")
    ensures Opens(Block(lines), AcceptKey(key)) <==> value == AcceptKey(key)
  {
    hide StartsAnyCase, Contains, Opens, AcceptKey, FirstValue, AllPieces;
    SameStart(name, PREFIX, blanks + value);
    OtherLines(AllPieces(lines), i);
    OpensIff(lines, AcceptKey(key));
    SkipBlankOver(blanks, value);
    assert (name + (blanks + value))[|PREFIX|..] == blanks + value;
  }

  /** A name that begins with another letter is another header. */
  lemma OtherHeader(line: string, pat: string)
    requires line != "" && pat != "" && Lower(line[0]) != Lower(pat[0])
    ensures !StartsAnyCase(line, pat)
  {
  }

  lemma AcceptName()
    ensures SameLetters("Sec-WebSocket-Accept:", PREFIX)
  {
  }

  const STATUS := "HTTP/1.1 101 Switching Protocols"
  const UPGRADE := "Upgrade: websocket"
  const CONNECTION := "Connection: Upgrade"

  /** The lines of the answer in section 1.3 of RFC 6455. */
  function Answer(value: string): seq<string> {
    [STATUS, UPGRADE, CONNECTION, "Sec-WebSocket-Accept: " + value]
  }

  lemma AnswerLines(value: string)
    requires value != "" && '\r' !in value && '\n' !in value && '\0' !in value && |value| < 64
    ensures ValidLines(Answer(value)) && AllPieces(Answer(value)) == Answer(value)
  {
    StatusLine();
    UpgradeLine();
    ConnectionLine();
    AcceptLine(value);
    hide STATUS, UPGRADE, CONNECTION, ValidLine;
    ShortLines(Answer(value));
  }

  lemma StatusLine()
    ensures ValidLine(STATUS) && |STATUS| < LINE_MAX
  {
  }

  lemma UpgradeLine()
    ensures ValidLine(UPGRADE) && |UPGRADE| < LINE_MAX
  {
  }

  lemma ConnectionLine()
    ensures ValidLine(CONNECTION) && |CONNECTION| < LINE_MAX
  {
  }

  lemma AcceptLine(value: string)
    requires '\r' !in value && '\n' !in value && '\0' !in value
    ensures ValidLine("Sec-WebSocket-Accept: " + value)
  {
    var name := "Sec-WebSocket-Accept: ";
    assert '\r' !in name && '\n' !in name && '\0' !in name;
  }

  lemma StatusSays101()
    ensures Contains(Take(STATUS, FIRST_MAX - 1), " 101")
  {
    hide Contains;
    ContainsAt("HTTP/1.1", " 101", " Switching Protocols");
    assert STATUS == "HTTP/1.1" + (" 101" + " Switching Protocols");
  }

  /** The standard answer opens the connection exactly when it carries the key's own value. */
  lemma StandardAnswer(value: string, key: string)
    requires value != "" && '\r' !in value && '\n' !in value && '\0' !in value && |value| < 64
    requires value[0] != ' ' && value[0] != '\t'
    ensures Opens(Block(Answer(value)), AcceptKey(key)) <==> value == AcceptKey(key)
  {
    AcceptName();
    AnswerLines(value);
    StatusSays101();
    OtherHeader(STATUS, PREFIX);
    OtherHeader(UPGRADE, PREFIX);
    OtherHeader(CONNECTION, PREFIX);
    hide Opens, AcceptKey, Block, AllPieces, StartsAnyCase, Contains, Take, SameLetters, ValidLine, STATUS, UPGRADE,
        CONNECTION;
    var lines := Answer(value);
    assert lines[3] == "Sec-WebSocket-Accept:" + (" " + value);
    RightAnswerOpens(lines, 3, "Sec-WebSocket-Accept:", " ", value, key);
  }

  // ---- the C code ----

  /** `ws_accept_key`. */
  method WsAcceptKey(key: string) returns (expected: string)
    ensures expected == AcceptKey(key)
  {
    hide Digest, AcceptKey, Octets;
    var dig := HashChunks(Sha1, [Octets(key + GUID)]);
    var out := new char[64];
    assert Flatten([Octets(key + GUID)]) == Octets(key + GUID) by { FlattenOne(Octets(key + GUID)); }
    Base64.EncodeLength(dig);
    assert |dig| == 20;
    var n := Base64.EncodeInto(dig, out);
    expected := out[..n];
    assert AcceptKey(key) == Base64.Encode(dig) by { AcceptKeyIs(key); }
  }

  lemma AcceptKeyIs(key: string)
    ensures AcceptKey(key) == Base64.Encode(Digest(Sha1, Octets(key + GUID)))
  {
  }

  lemma FlattenOne<T>(s: seq<T>)
    ensures Flatten([s]) == s
  {
    assert [s][1..] == [] && Flatten([s]) == s + Flatten([s][1..]);
  }

  /** The checks of `ws_handshake` on the header block. */
  method CheckHandshake(header: string, expected: string) returns (ok: bool)
    ensures ok == Opens(header, expected)
  {
    hide LineRun, SkipBreaks, StartsAnyCase, Contains, CStr, LineValue;
    var n := RunOfLine(header, FIRST_MAX - 1);
    if !Contains(CStr(header[..n]), " 101") { return false; }
    var s := header;
    while s != ""
      invariant AcceptValue(s) == AcceptValue(header)
      decreases |s|
    {
      var j := RunOfLine(s, LINE_MAX - 1);
      var line := CStr(s[..j]);
      if StartsAnyCase(line, PREFIX) { return LineValue(line) == expected; }
      if j == 0 { return false; }
      s := SkipRun(s[j..]);
    }
    ok := false;
  }

  method RunOfLine(s: string, room: nat) returns (n: nat)
    ensures n == LineRun(s, room)
  {
    n := 0;
    while n < room && n < |s| && !Break(s[n])
      invariant n <= |s| && n <= room && LineRun(s, room) == n + LineRun(s[n..], room - n)
    {
      DropDrop(s, n, 1);
      n := n + 1;
    }
  }

  method SkipRun(s: string) returns (p: string)
    ensures p == SkipBreaks(s)
  {
    p := s;
    while p != "" && Break(p[0])
      invariant SkipBreaks(p) == SkipBreaks(s)
      decreases |p|
    {
      p := p[1..];
    }
  }
}
