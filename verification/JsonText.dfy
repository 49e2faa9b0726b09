/**
 JSON string escaping and decoding as claude.c, mcp.c, mastodon.c and nostr.c share it (RFC 8259, section 7).
 */
module JsonText {
  import opened Bytes
  import opened CText

  const BS: char := '\U{8}'
  const FF: char := '\U{C}'

  // ---- escaping ----

  /** One character as `json_escape` writes it. */
  function EscapeChar(c: char): (r: string)
    ensures 1 <= |r| <= 6
  {
    if c == '\"' then "\\\""
    else if c == '\\' then "\\\\"
    else if c == '\n' then "\\n"
    else if c == '\r' then "\\r"
    else if c == '\t' then "\\t"
    else if c < ' ' then "\\u00" + [HexDigit(c as int / 16), HexDigit(c as int % 16)]
    else [c]
  }

  function Escape(s: string): (r: string)
    ensures |r| >= |s|
  {
    if s == "" then "" else EscapeChar(s[0]) + Escape(s[1..])
  }

  /** One character as `nostr_escape` writes it: other control characters stay as they are. */
  function NostrEscapeChar(c: char): (r: string)
    ensures 1 <= |r| <= 2
  {
    if c == '\"' then "\\\""
    else if c == '\\' then "\\\\"
    else if c == '\n' then "\\n"
    else if c == '\r' then "\\r"
    else if c == '\t' then "\\t"
    else if c == BS then "\\b"
    else if c == FF then "\\f"
    else [c]
  }

  function NostrEscape(s: string): (r: string)
    ensures |r| >= |s|
  {
    if s == "" then "" else NostrEscapeChar(s[0]) + NostrEscape(s[1..])
  }

  // ---- decoding ----

  function Hex4(h: string): (v: nat)
    requires |h| == 4
    ensures v < 0x1_0000
  {
    ((Nibble(h[0]) * 16 + Nibble(h[1])) * 16 + Nibble(h[2])) * 16 + Nibble(h[3])
  }

  /** A character that is no hexadecimal digit counts as zero. */
  function Nibble(c: char): (v: nat)
    ensures v < 16
  {
    if HexVal(c) < 0 then 0 else HexVal(c)
  }

  /** The one to three octets written for a 16-bit code. */
  function Utf8(v: nat): (r: string)
    requires v < 0x1_0000
    ensures 1 <= |r| <= 3
  {
    if v < 0x80 then [v as char]
    else if v < 0x800 then [(0xC0 + v / 0x40) as char, (0x80 + v % 0x40) as char]
    else [(0xE0 + v / 0x1000) as char, (0x80 + v / 0x40 % 0x40) as char, (0x80 + v % 0x40) as char]
  }

  /** What one pass of the decoding loop emits, and how much it consumes. */
  datatype Decoded = Decoded(out: string, used: nat)

  function Simple(n: char): (r: string)
    ensures |r| <= 1
  {
    if n == 'n' then "\n"
    else if n == 'r' then "\r"
    else if n == 't' then "\t"
    else if n == 'b' then [BS]
    else if n == 'f' then [FF]
    else if n == '/' || n == '\"' || n == '\\' then [n]
    else ""
  }

  function DecodeOne(src: string): (d: Decoded)
    requires src != ""
    ensures 1 <= d.used <= |src| && 1 <= |d.out| <= 3
  {
    if src[0] == '\\' && |src| > 1 then
      if Simple(src[1]) != "" then Decoded(Simple(src[1]), 2)
      else if src[1] == 'u' && |src| > 5 then Decoded(Utf8(Hex4(src[2..6])), 6)
      else Decoded("\\", 1)
    else Decoded([src[0]], 1)
  }

  function Unescape(src: string): string {
    if src == "" then ""
    else
      var d := DecodeOne(src);
      d.out + Unescape(src[d.used..])
  }

  /** Decoding that stops once `room` characters or more are out. */
  function UnescapeWithin(src: string, room: int): (r: string)
    ensures room <= 0 ==> r == ""
    ensures |r| < room + 3 || r == ""
    decreases |src|
  {
    if src == "" || room <= 0 then ""
    else
      var d := DecodeOne(src);
      d.out + UnescapeWithin(src[d.used..], room - |d.out|)
  }

  // ---- round trips ----

  lemma DecodeEscapedChar(c: char, t: string)
    ensures DecodeOne(EscapeChar(c) + t) == Decoded([c], |EscapeChar(c)|)
  {
    if c < ' ' && c != '\n' && c != '\r' && c != '\t' {
      var e := EscapeChar(c) + t;
      HexDigitVal(c as int / 16);
      HexDigitVal(c as int % 16);
      assert e[2..6] == ['0', '0', HexDigit(c as int / 16), HexDigit(c as int % 16)];
      assert Hex4(e[2..6]) == c as int;
    }
  }

  lemma DecodeNostrChar(c: char, t: string)
    ensures DecodeOne(NostrEscapeChar(c) + t) == Decoded([c], |NostrEscapeChar(c)|)
  {
  }

  /** Decoding undoes escaping, for every text and whatever follows it. */
  lemma {:induction false} UnescapeEscape(s: string, t: string)
    ensures Unescape(Escape(s) + t) == s + Unescape(t)
  {
    hide EscapeChar, DecodeOne;
    if s == "" {
      assert Escape(s) + t == t;
    } else {
      var e, more := EscapeChar(s[0]), Escape(s[1..]) + t;
      Assoc(e, Escape(s[1..]), t);
      DecodeEscapedChar(s[0], more);
      assert (e + more)[|e|..] == more;
      UnescapeEscape(s[1..], t);
      Assoc([s[0]], s[1..], Unescape(t));
      assert s == [s[0]] + s[1..];
    }
  }

  lemma EscapeDecodes(s: string)
    ensures Unescape(Escape(s)) == s
  {
    UnescapeEscape(s, "");
    assert Escape(s) + "" == Escape(s) && s + Unescape("") == s;
  }

  lemma {:induction false} UnescapeNostrEscape(s: string, t: string)
    ensures Unescape(NostrEscape(s) + t) == s + Unescape(t)
  {
    hide NostrEscapeChar, DecodeOne;
    if s == "" {
      assert NostrEscape(s) + t == t;
    } else {
      var e, more := NostrEscapeChar(s[0]), NostrEscape(s[1..]) + t;
      Assoc(e, NostrEscape(s[1..]), t);
      DecodeNostrChar(s[0], more);
      assert (e + more)[|e|..] == more;
      UnescapeNostrEscape(s[1..], t);
      Assoc([s[0]], s[1..], Unescape(t));
      assert s == [s[0]] + s[1..];
    }
  }

  /** Text without a backslash decodes to itself. */
  lemma {:induction false} UnescapePlain(s: string)
    requires '\\' !in s
    ensures Unescape(s) == s
  {
    hide DecodeOne;
    if s != "" {
      assert DecodeOne(s) == Decoded([s[0]], 1) by { DecodePlainChar(s); }
      UnescapePlain(s[1..]);
      assert s == [s[0]] + s[1..];
    }
  }

  lemma DecodePlainChar(s: string)
    requires s != "" && s[0] != '\\'
    ensures DecodeOne(s) == Decoded([s[0]], 1)
  {
  }

  /** A short buffer holds a prefix of the decoded text, and all of it when that leaves four characters free. */
  lemma {:induction false} UnescapeWithinIsPrefix(src: string, room: int)
    ensures var all, some := Unescape(src), UnescapeWithin(src, room);
            && some <= all
            && (some == all || |some| >= room)
            && (|all| <= room ==> some == all)
  {
    hide DecodeOne;
    if src != "" && room > 0 {
      var d := DecodeOne(src);
      UnescapeWithinIsPrefix(src[d.used..], room - |d.out|);
    }
  }

  // ---- string bodies ----

  /** The text between two delimiting quotes: every quote in it is escaped and no escape is cut off. */
  predicate ValidBody(raw: string) {
    raw == ""
    || (raw[0] == '\\' && |raw| >= 2 && ValidBody(raw[2..]))
    || (raw[0] != '\\' && raw[0] != '\"' && ValidBody(raw[1..]))
  }

  lemma {:induction false} ValidBodyAppend(a: string, b: string)
    requires ValidBody(a) && ValidBody(b)
    ensures ValidBody(a + b)
  {
    if a == "" {
      assert a + b == b;
    } else if a[0] == '\\' {
      ValidBodyAppend(a[2..], b);
      assert (a + b)[2..] == a[2..] + b;
    } else {
      ValidBodyAppend(a[1..], b);
      assert (a + b)[1..] == a[1..] + b;
    }
  }

  lemma EscapedCharIsBody(c: char)
    ensures ValidBody(EscapeChar(c))
  {
    var e := EscapeChar(c);
    if |e| == 1 {
      assert e[1..] == "";
    } else {
      assert e[0] == '\\';
      if |e| == 2 {
        assert e[2..] == "";
      } else {
        assert e[2..][1..][1..][1..][1..] == "";
        assert ValidBody(e[2..][1..][1..][1..]) && ValidBody(e[2..][1..][1..]);
      }
    }
  }

  lemma {:induction false} EscapeIsBody(s: string)
    ensures ValidBody(Escape(s))
  {
    hide EscapeChar;
    if s != "" {
      EscapedCharIsBody(s[0]);
      EscapeIsBody(s[1..]);
      ValidBodyAppend(EscapeChar(s[0]), Escape(s[1..]));
    }
  }

  /** Inside a body a quote follows a backslash. */
  lemma {:induction false} QuoteIsEscaped(raw: string, i: nat)
    requires ValidBody(raw) && i < |raw| && raw[i] == '\"'
    ensures i > 0 && raw[i - 1] == '\\'
  {
    if raw[0] == '\\' {
      if i >= 2 { QuoteIsEscaped(raw[2..], i - 2); }
    } else {
      QuoteIsEscaped(raw[1..], i - 1);
    }
  }

  /** Escaped text carries no raw line break, tab or other control character. */
  lemma {:induction false} EscapeHasNoControls(s: string)
    ensures forall i :: 0 <= i < |Escape(s)| ==> Escape(s)[i] >= ' '
  {
    if s != "" {
      EscapeHasNoControls(s[1..]);
      var e := EscapeChar(s[0]);
      assert forall i :: 0 <= i < |e| ==> e[i] >= ' ';
    }
  }

  // ---- the C functions ----

  /** `json_escape` refuses when less than eight characters are left before some character. */
  predicate EscapeFits(src: string, dstlen: int) {
    src == "" || |Escape(src[..|src| - 1])| < dstlen - 7
  }

  lemma {:induction false} EscapeSnoc(s: string, c: char)
    ensures Escape(s + [c]) == Escape(s) + EscapeChar(c)
  {
    hide EscapeChar;
    if s == "" {
      assert s + [c] == [c];
      assert Escape([c]) == EscapeChar(c) + Escape([c][1..]) == EscapeChar(c) + "";
    } else {
      assert (s + [c])[1..] == s[1..] + [c];
      EscapeSnoc(s[1..], c);
      Assoc(EscapeChar(s[0]), Escape(s[1..]), EscapeChar(c));
    }
  }

  lemma {:induction false} NostrEscapeSnoc(s: string, c: char)
    ensures NostrEscape(s + [c]) == NostrEscape(s) + NostrEscapeChar(c)
  {
    hide NostrEscapeChar;
    if s == "" {
      assert s + [c] == [c];
      assert NostrEscape([c]) == NostrEscapeChar(c) + NostrEscape([c][1..]) == NostrEscapeChar(c) + "";
    } else {
      assert (s + [c])[1..] == s[1..] + [c];
      NostrEscapeSnoc(s[1..], c);
      Assoc(NostrEscapeChar(s[0]), NostrEscape(s[1..]), NostrEscapeChar(c));
    }
  }

  lemma EscapePrefix(s: string, i: nat)
    requires i < |s|
    ensures Escape(s[..i + 1]) == Escape(s[..i]) + EscapeChar(s[i])
  {
    assert s[..i + 1] == s[..i] + [s[i]];
    EscapeSnoc(s[..i], s[i]);
  }

  lemma {:induction false} EscapeMonotone(s: string, i: nat, j: nat)
    requires i <= j <= |s|
    ensures |Escape(s[..i])| <= |Escape(s[..j])|
    decreases j - i
  {
    if i < j {
      EscapePrefix(s, j - 1);
      EscapeMonotone(s, i, j - 1);
    }
  }

  method JsonEscape(dst: array<char>, src: string) returns (n: int)
    requires dst.Length >= 1
    modifies dst
    ensures n == -1 <==> !EscapeFits(src, dst.Length)
    ensures n != -1 ==> n == |Escape(src)| < dst.Length && dst[..n] == Escape(src) && dst[n] == '\0'
  {
    hide EscapeChar, Escape;
    var o, i := 0, 0;
    assert Escape(src[..0]) == "" by { assert src[..0] == ""; EscapeNothing(); }
    while i < |src|
      invariant 0 <= i <= |src|
      invariant 0 <= o == |Escape(src[..i])| < dst.Length && dst[..o] == Escape(src[..i])
      invariant i > 0 ==> |Escape(src[..i - 1])| < dst.Length - 7
    {
      if o >= dst.Length - 7 {
        dst[o] := '\0';
        EscapeMonotone(src, i, |src| - 1);
        return -1;
      }
      var e := EscapeChar(src[i]);
      EscapePrefix(src, i);
      forall k | 0 <= k < |e| { dst[o + k] := e[k]; }
      assert dst[..o + |e|] == Escape(src[..i]) + e;
      o := o + |e|;
      i := i + 1;
    }
    assert src[..i] == src;
    dst[o] := '\0';
    n := o;
  }

  lemma EscapeNothing()
    ensures Escape("") == ""
  {
  }

  lemma UnescapeStep(src: string, room: int)
    ensures UnescapeWithin(src, room)
         == if src == "" || room <= 0 then ""
            else var d := DecodeOne(src); d.out + UnescapeWithin(src[d.used..], room - |d.out|)
  {
    hide DecodeOne;
  }

  /** `json_unescape`. */
  method JsonUnescape(src: string, dst: array<char>) returns (n: nat)
    requires dst.Length >= 1
    modifies dst
    ensures n < dst.Length && dst[n] == '\0'
    ensures dst[..n] == UnescapeWithin(src, dst.Length - 4)
  {
    hide DecodeOne, UnescapeWithin;
    var i, o := 0, 0;
    while i < |src| && o < dst.Length - 4
      invariant 0 <= i <= |src| && 0 <= o < dst.Length
      invariant dst[..o] + UnescapeWithin(src[i..], dst.Length - 4 - o) == UnescapeWithin(src, dst.Length - 4)
      decreases |src| - i
    {
      var d := DecodeOne(src[i..]);
      ghost var was, room := dst[..o], dst.Length - 4 - o;
      UnescapeStep(src[i..], room);
      DropDrop(src, i, d.used);
      Assoc(was, d.out, UnescapeWithin(src[i + d.used..], room - |d.out|));
      forall k | 0 <= k < |d.out| { dst[o + k] := d.out[k]; }
      assert dst[..o + |d.out|] == was + d.out;
      o := o + |d.out|;
      i := i + d.used;
    }
    UnescapeStep(src[i..], dst.Length - 4 - o);
    assert dst[..o] + "" == dst[..o];
    dst[o] := '\0';
    n := o;
  }
}
