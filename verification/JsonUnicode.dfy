/**
 What the escapes of a JSON string decode to: `json_unescape` against a reader of UTF-8 written on its own
 (RFC 3629, sections 3 and 4), and the table of the two-character escapes.
 */
module JsonUnicode {
  import opened Wrappers
  import opened CText
  import opened JsonText

  // ---- reading UTF-8 ----

  /** A code and the number of octets that hold it. */
  datatype Coded = Coded(code: nat, length: nat)

  predicate Surrogate(v: nat) { 0xD800 <= v < 0xE000 }

  predicate HasSurrogate(vs: seq<nat>) { exists i :: 0 <= i < |vs| && Surrogate(vs[i]) }

  lemma HasSurrogateStep(vs: seq<nat>)
    ensures HasSurrogate(vs) <==> vs != [] && (Surrogate(vs[0]) || HasSurrogate(vs[1..]))
  {
    if i :| 0 < i < |vs| && Surrogate(vs[i]) { assert vs[1..][i - 1] == vs[i]; }
  }

  predicate Trail(s: string, k: nat) { k < |s| && 0x80 <= s[k] as int < 0xC0 }

  /** The low six bits. */
  function Low6(c: char): nat { c as int % 0x40 }

  /** The first code, unless the octets are cut off, longer than they need be, or hold half of a surrogate pair. */
  function FirstCode(s: string): (r: Option<Coded>)
    requires s != ""
    ensures r.Some? ==> 1 <= r.value.length <= |s|
  {
    var a := s[0] as int;
    if a < 0x80 then Some(Coded(a, 1))
    else if 0xC2 <= a < 0xE0 && Trail(s, 1) then Some(Coded((a - 0xC0) * 0x40 + Low6(s[1]), 2))
    else if 0xE0 <= a < 0xF0 && Trail(s, 1) && Trail(s, 2) then
      var v := (a - 0xE0) * 0x1000 + Low6(s[1]) * 0x40 + Low6(s[2]);
      if v < 0x800 || Surrogate(v) then None else Some(Coded(v, 3))
    else if 0xF0 <= a < 0xF5 && Trail(s, 1) && Trail(s, 2) && Trail(s, 3) then
      var v := (a - 0xF0) * 0x4_0000 + Low6(s[1]) * 0x1000 + Low6(s[2]) * 0x40 + Low6(s[3]);
      if v < 0x1_0000 || v > 0x10_FFFF then None else Some(Coded(v, 4))
    else None
  }

  /** All codes of a text of octets, if it is UTF-8. */
  function Codes(s: string): Option<seq<nat>> {
    if s == "" then Some([])
    else
      match FirstCode(s)
      case None => None
      case Some(c) =>
        match Codes(s[c.length..])
        case None => None
        case Some(more) => Some([c.code] + more)
  }

  // ---- writing escapes ----

  /** A digit of either case; the code reads any other character as zero. */
  predicate Names(c: char, d: nat)
    requires d < 16
  {
    c == LOWER_HEX[d] || c == UPPER_HEX[d] || (d == 0 && c !in LOWER_HEX && c !in UPPER_HEX)
  }

  /** Four characters that stand for a 16-bit code, high digit first. */
  predicate FourDigits(h: string, v: nat) {
    && |h| == 4 && v < 0x1_0000
    && Names(h[0], v / 0x1000) && Names(h[1], v / 0x100 % 16) && Names(h[2], v / 16 % 16) && Names(h[3], v % 16)
  }

  predicate AllFourDigits(hs: seq<string>, vs: seq<nat>) {
    |hs| == |vs| && forall i :: 0 <= i < |hs| ==> FourDigits(hs[i], vs[i])
  }

  /** A run of `\\u` escapes. */
  function Escapes(hs: seq<string>): string {
    if hs == [] then "" else "\\u" + hs[0] + Escapes(hs[1..])
  }

  lemma DigitIsRead(c: char, d: nat)
    requires d < 16 && Names(c, d)
    ensures Nibble(c) == d
  {
    HexTable(c, d);
  }

  lemma DigitsAreRead(h: string, v: nat)
    requires FourDigits(h, v)
    ensures Hex4(h) == v
  {
    hide Nibble, Names;
    DigitIsRead(h[0], v / 0x1000);
    DigitIsRead(h[1], v / 0x100 % 16);
    DigitIsRead(h[2], v / 16 % 16);
    DigitIsRead(h[3], v % 16);
    HexadecimalDigits(v);
  }

  lemma HexadecimalDigits(v: nat)
    ensures v == ((v / 0x1000 * 16 + v / 0x100 % 16) * 16 + v / 16 % 16) * 16 + v % 16
  {
    var q, r := v / 16, v / 0x100;
    assert v == 16 * q + v % 16 && q == 16 * r + q % 16 && r == 16 * (r / 16) + r % 16;
    assert q / 16 == r && r / 16 == v / 0x1000;
  }

  lemma EscapeStep(h: string, t: string)
    requires |h| == 4
    ensures DecodeOne("\\u" + h + t) == Decoded(Utf8(Hex4(h)), 6) && ("\\u" + h + t)[6..] == t
  {
    hide Utf8, Hex4;
    var s := "\\u" + h + t;
    assert s[2..6] == h && s[6..] == t;
  }

  lemma EscapeIsDecoded(h: string, v: nat, t: string)
    requires FourDigits(h, v)
    ensures Unescape("\\u" + h + t) == Utf8(v) + Unescape(t)
  {
    DigitsAreRead(h, v);
    EscapeStep(h, t);
    hide Utf8, Hex4, FourDigits, DecodeOne;
  }

  /** The octets written for a code are UTF-8 unless the code is half of a surrogate pair. */
  lemma WrittenCode(v: nat, t: string)
    requires v < 0x1_0000
    ensures FirstCode(Utf8(v) + t) == if Surrogate(v) then None else Some(Coded(v, |Utf8(v)|))
  {
    if v >= 0x800 { ThreeOctets(v, t); } else if v >= 0x80 { TwoOctets(v, t); }
  }

  lemma TwoOctets(v: nat, t: string)
    requires 0x80 <= v < 0x800
    ensures FirstCode(Utf8(v) + t) == Some(Coded(v, 2)) && |Utf8(v)| == 2
  {
    var s := Utf8(v) + t;
    assert s[0] as int - 0xC0 == v / 0x40 && Low6(s[1]) == v % 0x40;
  }

  lemma ThreeOctets(v: nat, t: string)
    requires 0x800 <= v < 0x1_0000
    ensures FirstCode(Utf8(v) + t) == if Surrogate(v) then None else Some(Coded(v, 3))
    ensures |Utf8(v)| == 3
  {
    var s := Utf8(v) + t;
    assert s[0] as int - 0xE0 == v / 0x1000;
    assert Low6(s[1]) == v / 0x40 % 0x40 && Low6(s[2]) == v % 0x40;
    assert v == v / 0x1000 * 0x1000 + v / 0x40 % 0x40 * 0x40 + v % 0x40;
    hide Surrogate;
  }

  lemma ReadWritten(v: nat, t: string)
    requires v < 0x1_0000
    ensures Codes(Utf8(v) + t)
         == if Surrogate(v) || Codes(t) == None then None else Some([v] + Codes(t).value)
  {
    hide FirstCode, Utf8, Surrogate;
    WrittenCode(v, t);
    assert (Utf8(v) + t)[|Utf8(v)|..] == t;
  }

  /**
   A run of escapes decodes to the UTF-8 of its codes, in digits of either case, exactly when no code is half of a
   surrogate pair: pairs are not joined, and each half is written by itself, which no UTF-8 reader accepts.
   */
  lemma {:induction false} EscapesAreUtf8(hs: seq<string>, vs: seq<nat>)
    requires AllFourDigits(hs, vs)
    ensures Codes(Unescape(Escapes(hs))) == if HasSurrogate(vs) then None else Some(vs)
  {
    HasSurrogateStep(vs);
    hide Codes, Utf8, FourDigits, Surrogate, HasSurrogate, Unescape;
    if hs == [] {
      NoCodes();
    } else {
      assert FourDigits(hs[0], vs[0]);
      EscapeIsDecoded(hs[0], vs[0], Escapes(hs[1..]));
      SmallCode(hs[0], vs[0]);
      ReadWritten(vs[0], Unescape(Escapes(hs[1..])));
      assert AllFourDigits(hs[1..], vs[1..]);
      EscapesAreUtf8(hs[1..], vs[1..]);
      assert vs == [vs[0]] + vs[1..];
    }
  }

  lemma SmallCode(h: string, v: nat)
    requires FourDigits(h, v)
    ensures v < 0x1_0000
  {
  }

  lemma NoCodes()
    ensures Codes(Unescape("")) == Some([])
  {
  }

  // ---- the other escapes ----

  /** The character each two-character escape stands for. */
  const ESCAPED: map<char, nat> :=
    map['\"' := 0x22, '\\' := 0x5C, '/' := 0x2F, 'b' := 0x08, 'f' := 0x0C, 'n' := 0x0A, 'r' := 0x0D, 't' := 0x09]

  lemma SimpleStep(c: char, t: string)
    ensures var d := DecodeOne("\\" + [c] + t);
            && (c in ESCAPED ==> d == Decoded([ESCAPED[c] as char], 2))
            && (c !in ESCAPED && (c != 'u' || |t| < 4) ==> d == Decoded("\\", 1))
  {
  }

  lemma AfterBackslash(c: char, t: string)
    ensures ("\\" + [c] + t)[2..] == t && ("\\" + [c] + t)[1..] == [c] + t
  {
  }

  lemma UnescapeFront(s: string)
    requires s != ""
    ensures Unescape(s) == DecodeOne(s).out + Unescape(s[DecodeOne(s).used..])
  {
    hide DecodeOne;
  }

  /** The table of section 7 of RFC 8259; a backslash before anything else stays, and so does a `\\u` cut short. */
  lemma SimpleEscapes(c: char, t: string)
    ensures c in ESCAPED ==> Unescape("\\" + [c] + t) == [ESCAPED[c] as char] + Unescape(t)
    ensures c !in ESCAPED && (c != 'u' || |t| < 4) ==> Unescape("\\" + [c] + t) == "\\" + Unescape([c] + t)
  {
    hide DecodeOne, ESCAPED, Unescape;
    SimpleStep(c, t);
    AfterBackslash(c, t);
    UnescapeFront("\\" + [c] + t);
  }

  lemma PlainCharacter(c: char, t: string)
    requires c != '\\'
    ensures Unescape([c] + t) == [c] + Unescape(t)
  {
    hide DecodeOne;
    DecodePlainChar([c] + t);
    assert ([c] + t)[1..] == t;
  }

  // ---- what the two escapers write ----

  /** How `json_escape` writes one more character: three controls by letter, the others by number. */
  lemma EscapedForms(s: string, c: char)
    ensures var v := c as int; var e := Escape(s + [c]);
            && (v == 0x22 || v == 0x5C ==> e == Escape(s) + ("\\" + [c]))
            && (v == 0x0A ==> e == Escape(s) + "\\n") && (v == 0x0D ==> e == Escape(s) + "\\r")
            && (v == 0x09 ==> e == Escape(s) + "\\t")
            && (v < 0x20 && v !in {0x0A, 0x0D, 0x09}
                ==> e == Escape(s) + ("\\u00" + [LOWER_HEX[v / 16], LOWER_HEX[v % 16]]))
            && (v >= 0x20 && v != 0x22 && v != 0x5C ==> e == Escape(s) + [c])
  {
    EscapeSnoc(s, c);
    hide Escape;
    if c as int < 0x20 {
      HexTable(c, c as int / 16);
      HexTable(c, c as int % 16);
    }
  }

  /** How the serialization of NIP-01 writes one more character: seven escapes, all else as it is. */
  lemma NostrForms(s: string, c: char)
    ensures var v := c as int; var e := NostrEscape(s + [c]);
            && (v == 0x22 || v == 0x5C ==> e == NostrEscape(s) + ("\\" + [c]))
            && (v == 0x0A ==> e == NostrEscape(s) + "\\n") && (v == 0x0D ==> e == NostrEscape(s) + "\\r")
            && (v == 0x09 ==> e == NostrEscape(s) + "\\t") && (v == 0x08 ==> e == NostrEscape(s) + "\\b")
            && (v == 0x0C ==> e == NostrEscape(s) + "\\f")
            && (v !in {0x22, 0x5C, 0x0A, 0x0D, 0x09, 0x08, 0x0C} ==> e == NostrEscape(s) + [c])
  {
    NostrEscapeSnoc(s, c);
    hide NostrEscape;
  }
}
