/**
 `rc_strtoul`, the shift-and-add number reader of the tools, on a 32-bit `unsigned long`, and its inverse
 printers.
 */
module Numbers {
  import opened CText

  const U32 := 0x1_0000_0000

  predicate IsDigit(c: char, base: nat) { 0 <= HexVal(c) < base }

  /** What was read, and the text from the first character that is no digit. */
  datatype Number = Number(value: nat, rest: string)

  /** Appending one digit: `v << 4 | d`, or `(v << 3) + (v << 1) + d`. */
  function Append(v: nat, base: nat, d: nat): (r: nat)
    ensures r >= v && r >= d
  {
    if base == 16 then v * 16 + d else v * 10 + d
  }

  /** The digit loop; both ways of appending a digit wrap at 32 bits. */
  function Digits(s: string, base: nat, v: nat): (r: Number)
    ensures |r.rest| <= |s|
  {
    if s != "" && IsDigit(s[0], base) then Digits(s[1..], base, Append(v, base, HexVal(s[0])) % U32) else Number(v, s)
  }

  function SkipBlank(s: string): (r: string)
    ensures |r| <= |s|
  {
    if s != "" && (s[0] == ' ' || s[0] == '\t') then SkipBlank(s[1..]) else s
  }

  predicate OnlyBlanks(s: string) { forall i :: 0 <= i < |s| ==> s[i] == ' ' || s[i] == '\t' }

  lemma {:induction false} SkipBlankOver(blanks: string, value: string)
    requires OnlyBlanks(blanks) && (value == "" || (value[0] != ' ' && value[0] != '\t'))
    ensures SkipBlank(blanks + value) == value
  {
    if blanks == "" {
      assert blanks + value == value;
    } else {
      assert (blanks + value)[1..] == blanks[1..] + value;
      SkipBlankOver(blanks[1..], value);
    }
  }

  function StrToUl(s: string, base: nat): (r: Number)
    ensures |r.rest| <= |s|
  {
    var t := SkipBlank(s);
    var u := if base == 16 && At(t, 0) == '0' && (At(t, 1) == 'x' || At(t, 1) == 'X') then t[2..] else t;
    Digits(u, base, 0)
  }

  /** The cast to `long`. */
  function ToLong(v: nat): int { if v % U32 < 0x8000_0000 then v % U32 else v % U32 - U32 }

  // ---- without wrap-around ----

  predicate AllDigits(s: string, base: nat) { forall i :: 0 <= i < |s| ==> IsDigit(s[i], base) }

  /** The value of a digit string in unbounded arithmetic. */
  function Value(s: string, base: nat, v: nat): (r: nat)
    requires AllDigits(s, base)
    ensures r >= v
  {
    if s == "" then v else Value(s[1..], base, Append(v, base, HexVal(s[0])))
  }

  lemma {:induction false} DigitsRead(s: string, rest: string, base: nat, v: nat)
    requires AllDigits(s, base) && Value(s, base, v) < U32
    requires rest == "" || !IsDigit(rest[0], base)
    ensures Digits(s + rest, base, v) == Number(Value(s, base, v), rest)
  {
    hide Digits, IsDigit, Append, Value, AllDigits;
    if s == "" {
      assert s + rest == rest;
      ValueOfNothing(base, v);
      DigitsStop(rest, base, v);
    } else {
      DigitsSplit(s, base, v);
      var next := Append(v, base, HexVal(s[0]));
      ValueGrows(s[1..], base, next);
      assert (s + rest)[0] == s[0] && (s + rest)[1..] == s[1..] + rest;
      DigitsRead(s[1..], rest, base, next);
      DigitsGo(s + rest, base, v);
    }
  }

  lemma ValueOfNothing(base: nat, v: nat)
    ensures AllDigits("", base) && Value("", base, v) == v
  {
  }

  lemma ValueGrows(s: string, base: nat, v: nat)
    requires AllDigits(s, base)
    ensures Value(s, base, v) >= v
  {
  }

  lemma DigitsSplit(s: string, base: nat, v: nat)
    requires s != "" && AllDigits(s, base)
    ensures IsDigit(s[0], base) && HexVal(s[0]) >= 0 && AllDigits(s[1..], base)
    ensures Value(s, base, v) == Value(s[1..], base, Append(v, base, HexVal(s[0])))
  {
    hide Append;
  }

  lemma DigitsStop(s: string, base: nat, v: nat)
    requires s == "" || !IsDigit(s[0], base)
    ensures Digits(s, base, v) == Number(v, s)
  {
  }

  lemma DigitsGo(s: string, base: nat, v: nat)
    requires s != "" && IsDigit(s[0], base)
    ensures HexVal(s[0]) >= 0 && Digits(s, base, v) == Digits(s[1..], base, Append(v, base, HexVal(s[0])) % U32)
  {
  }

  lemma {:induction false} ValueSnoc(s: string, d: char, base: nat, v: nat)
    requires AllDigits(s, base) && IsDigit(d, base)
    ensures AllDigits(s + [d], base) && Value(s + [d], base, v) == Append(Value(s, base, v), base, HexVal(d))
  {
    if s == "" {
      assert s + [d] == [d] && [d][1..] == "";
    } else {
      assert (s + [d])[1..] == s[1..] + [d];
      ValueSnoc(s[1..], d, base, Append(v, base, HexVal(s[0])));
    }
  }

  /** The digits of a number, as `%d` or a chunk-size writer prints them. */
  function PrintNat(n: nat, base: nat): (s: string)
    requires base == 10 || base == 16
    ensures s != ""
  {
    if n < base then [HexDigit(n)] else PrintNat(n / base, base) + [HexDigit(n % base)]
  }

  /** The digits printed, from the last one: decimal, or hexadecimal in lower case. */
  lemma PrintedDigits(n: nat, base: nat)
    requires base == 10 || base == 16
    ensures PrintNat(n, base) == (if n < base then "" else PrintNat(n / base, base)) + [LOWER_HEX[n % base]]
  {
    hide PrintNat, LOWER_HEX, HexDigit, HexVal;
    PrintStep(n, base);
    var d := n % base;
    HexTable('0', d);
    if n < base {
      assert n == d;
      assert "" + [HexDigit(d)] == [HexDigit(d)];
    }
  }

  lemma PrintStep(n: nat, base: nat)
    requires base == 10 || base == 16
    ensures PrintNat(n, base) == if n < base then [HexDigit(n)] else PrintNat(n / base, base) + [HexDigit(n % base)]
  {
    hide HexDigit;
  }

  /** One more digit, of either case, counts for itself; what was read before counts ten or sixteen times. */
  lemma ValueOfDigit(s: string, base: nat, d: nat, c: char)
    requires (base == 10 || base == 16) && AllDigits(s, base) && d < base
    requires c == LOWER_HEX[d] || c == UPPER_HEX[d]
    ensures AllDigits(s + [c], base) && Value(s + [c], base, 0) == base * Value(s, base, 0) + d
    ensures Value("", base, 0) == 0
  {
    HexTable(c, d);
    hide HexVal, LOWER_HEX, UPPER_HEX, AllDigits, Value;
    ValueSnoc(s, c, base, 0);
    ValueOfNothing(base, 0);
  }

  /** Beyond 32 bits the value is cut to its low word, for digit strings of any length. */
  lemma {:induction false} DigitsModulo(s: string, rest: string, base: nat, v: nat, w: nat)
    requires (base == 10 || base == 16) && AllDigits(s, base) && v == w % U32
    requires rest == "" || !IsDigit(rest[0], base)
    ensures Digits(s + rest, base, v) == Number(Value(s, base, w) % U32, rest)
  {
    hide Digits, IsDigit, Append, Value, AllDigits;
    if s == "" {
      assert s + rest == rest;
      ValueOfNothing(base, w);
      DigitsStop(rest, base, v);
    } else {
      DigitsSplit(s, base, w);
      var d := HexVal(s[0]);
      AppendModulo(w, base, d);
      assert (s + rest)[0] == s[0] && (s + rest)[1..] == s[1..] + rest;
      DigitsGo(s + rest, base, v);
      DigitsModulo(s[1..], rest, base, Append(v, base, d) % U32, Append(w, base, d));
    }
  }

  lemma AppendModulo(w: nat, base: nat, d: nat)
    requires base == 10 || base == 16
    ensures Append(w % U32, base, d) % U32 == Append(w, base, d) % U32
  {
    var q := w / U32;
    assert w == U32 * q + w % U32;
    assert Append(w, base, d) == U32 * (base * q) + Append(w % U32, base, d);
    ModPlus(base * q, Append(w % U32, base, d));
  }

  lemma ModPlus(q: nat, r: nat)
    ensures (U32 * q + r) % U32 == r % U32
  {
  }

  /** Reading inverts printing. */
  lemma {:induction false} ValueOfPrint(n: nat, base: nat)
    requires base == 10 || base == 16
    ensures AllDigits(PrintNat(n, base), base) && Value(PrintNat(n, base), base, 0) == n
  {
    HexDigitVal(n % base);
    if n < base {
      assert PrintNat(n, base)[1..] == "";
    } else {
      ValueOfPrint(n / base, base);
      ValueSnoc(PrintNat(n / base, base), HexDigit(n % base), base, 0);
    }
  }

  /** A printed number has no leading zero unless it is one digit long. */
  lemma {:induction false} PrintHead(n: nat, base: nat)
    requires base == 10 || base == 16
    ensures n > 0 ==> PrintNat(n, base)[0] != '0'
  {
    if n >= base { PrintHead(n / base, base); }
  }

  /** `rc_strtoul` on a digit string that starts with no `0x` gives its value. */
  lemma StrToUlReads(s: string, rest: string, base: nat)
    requires base == 10 || base == 16
    requires s != "" && AllDigits(s, base) && Value(s, base, 0) < U32
    requires rest == "" || !IsDigit(rest[0], base)
    requires s == "0" ==> At(rest, 0) != 'x' && At(rest, 0) != 'X'
    ensures StrToUl(s + rest, base) == Number(Value(s, base, 0), rest)
  {
    var t := s + rest;
    assert IsDigit(s[0], base);
    assert |s| > 1 ==> IsDigit(At(s, 1), base);
    assert SkipBlank(t) == t;
    DigitsRead(s, rest, base, 0);
  }

  /** Any digit string, after blanks and in hexadecimal after `0x`: its value modulo 2^32, and the text after it. */
  lemma StrToUlWraps(blanks: string, prefix: string, s: string, rest: string, base: nat)
    requires (base == 10 || base == 16) && OnlyBlanks(blanks) && AllDigits(s, base)
    requires rest == "" || !IsDigit(rest[0], base)
    requires prefix == "" || (base == 16 && (prefix == "0x" || prefix == "0X"))
    requires prefix == "" ==> s != "" && (s == "0" ==> At(rest, 0) != 'x' && At(rest, 0) != 'X')
    ensures StrToUl(blanks + (prefix + (s + rest)), base) == Number(Value(s, base, 0) % U32, rest)
  {
    var t := prefix + (s + rest);
    assert s != "" ==> IsDigit(s[0], base);
    assert |s| > 1 ==> IsDigit(At(s, 1), base);
    hide AllDigits, Value, Digits;
    SkipBlankOver(blanks, t);
    DigitsModulo(s, rest, base, 0, 0);
    if prefix == "" { assert t == s + rest; } else { assert t[2..] == s + rest; }
  }

  // ---- the C function ----

  method StrToUlPtr(s: string, base: nat) returns (v: nat, end: string)
    ensures Number(v, end) == StrToUl(s, base)
  {
    var p := s;
    while p != "" && (p[0] == ' ' || p[0] == '\t')
      invariant SkipBlank(p) == SkipBlank(s)
      decreases |p|
    {
      p := p[1..];
    }
    if base == 16 && At(p, 0) == '0' && (At(p, 1) == 'x' || At(p, 1) == 'X') { p := p[2..]; }
    v := 0;
    while p != "" && IsDigit(p[0], base)
      invariant Digits(p, base, v) == StrToUl(s, base)
      decreases |p|
    {
      v := Append(v, base, HexVal(p[0])) % U32;
      p := p[1..];
    }
    end := p;
  }
}
