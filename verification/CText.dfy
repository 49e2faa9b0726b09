/**
 C strings.  A `const char *` is modelled by the text from it to the terminating NUL, so moving a pointer
 forward drops a prefix.  One `char` stands for one octet.
 */
module CText {
  import opened Bytes

  /** `p[k]`, the terminator standing in for everything past the text. */
  function At(s: string, k: int): char { if 0 <= k < |s| then s[k] else '\0' }

  predicate IsSpace(c: char) { c == ' ' || c == '\t' || c == '\r' || c == '\n' }

  predicate AllSpace(s: string) { forall i :: 0 <= i < |s| ==> IsSpace(s[i]) }

  /** `while (*q == ' ' || ...) q++`. */
  function SkipSpace(s: string): (r: string)
    ensures |r| <= |s| && r == s[|s| - |r|..]
  {
    if s != "" && IsSpace(s[0]) then SkipSpace(s[1..]) else s
  }

  lemma {:induction false} SkipSpaceOver(ws: string, s: string)
    requires AllSpace(ws) && (s == "" || !IsSpace(s[0]))
    ensures SkipSpace(ws + s) == s
  {
    if ws == "" {
      assert ws + s == s;
    } else {
      assert (ws + s)[1..] == ws[1..] + s;
      SkipSpaceOver(ws[1..], s);
    }
  }

  /** The part of a buffer a caller sees: up to the first NUL. */
  function CStr(s: string): (r: string)
    ensures |r| <= |s| && r == s[..|r|]
    ensures '\0' !in r
  {
    if s == "" || s[0] == '\0' then "" else [s[0]] + CStr(s[1..])
  }

  lemma {:induction false} CStrOfNulFree(s: string)
    ensures CStr(s) == s <==> '\0' !in s
  {
    if s != "" && s[0] != '\0' {
      CStrOfNulFree(s[1..]);
      assert s == [s[0]] + s[1..];
    }
  }

  function HexDigit(v: nat): char
    requires v < 16
  {
    if v < 10 then (48 + v) as char else (87 + v) as char
  }

  /** The value of a hexadecimal digit of either case, or -1. */
  function HexVal(c: char): (v: int)
    ensures -1 <= v < 16
  {
    if '0' <= c <= '9' then c as int - 48
    else if 'a' <= c <= 'f' then c as int - 87
    else if 'A' <= c <= 'F' then c as int - 55
    else -1
  }

  lemma HexDigitVal(v: nat)
    requires v < 16
    ensures HexVal(HexDigit(v)) == v
  {
  }

  const LOWER_HEX := "0123456789abcdef"
  const UPPER_HEX := "0123456789ABCDEF"

  /** The digits by name: sixteen of each case are read, the lower ones are written, no other character has a value. */
  lemma HexTable(c: char, d: nat)
    requires d < 16
    ensures HexDigit(d) == LOWER_HEX[d]
    ensures HexVal(c) == d <==> c == LOWER_HEX[d] || c == UPPER_HEX[d]
    ensures HexVal(c) < 0 <==> c !in LOWER_HEX && c !in UPPER_HEX
  {
    var v := HexVal(c);
    if v >= 0 { assert c == LOWER_HEX[v] || c == UPPER_HEX[v]; }
  }

  function Take(s: string, n: nat): (r: string)
    ensures |r| == Min(|s|, n) && r <= s
  {
    if |s| <= n then s else s[..n]
  }

  predicate Starts(s: string, pat: string) { |pat| <= |s| && s[..|pat|] == pat }

  lemma StartsAt(s: string, pat: string, k: nat)
    requires k < |pat|
    ensures Starts(s, pat) ==> At(s, k) == pat[k]
  {
  }

  /** `strstr(s, pat) != NULL`. */
  function Contains(s: string, pat: string): bool {
    Starts(s, pat) || (s != "" && Contains(s[1..], pat))
  }

  lemma {:induction false} ContainsAt(a: string, pat: string, c: string)
    ensures Contains(a + (pat + c), pat)
  {
    var s := a + (pat + c);
    if a == "" {
      assert s == pat + c && s[..|pat|] == pat;
    } else {
      assert s[1..] == a[1..] + (pat + c);
      ContainsAt(a[1..], pat, c);
    }
  }

  function Lower(c: char): char { if 'A' <= c <= 'Z' then (c as int + 32) as char else c }

  const LOWER_LETTERS := "abcdefghijklmnopqrstuvwxyz"
  const UPPER_LETTERS := "ABCDEFGHIJKLMNOPQRSTUVWXYZ"

  lemma LowerTable(c: char, i: nat)
    requires i < 26
    ensures c == UPPER_LETTERS[i] ==> Lower(c) == LOWER_LETTERS[i]
    ensures c !in UPPER_LETTERS ==> Lower(c) == c
  {
    if 'A' <= c <= 'Z' { assert c == UPPER_LETTERS[c as int - 65]; }
  }

  // ---- writing ----

  /** Copies a text behind the first `o` characters of a buffer. */
  method PutText(out: array<char>, o: nat, t: string) returns (n: nat)
    requires o + |t| <= out.Length
    modifies out
    ensures n == o + |t| && out[..n] == old(out[..o]) + t
  {
    forall k | 0 <= k < |t| { out[o + k] := t[k]; }
    n := o + |t|;
  }

  // ---- octets ----

  /** One octet for each character. */
  function Octets(s: string): seq<byte> { seq(|s|, i requires 0 <= i < |s| => s[i] as int % 256) }

  /** One character for each octet. */
  function Chars(b: seq<byte>): string { seq(|b|, i requires 0 <= i < |b| => b[i] as char) }

  // ---- joining ----

  /** The parts with a separator between each two. */
  function Join(parts: seq<string>, sep: string): string {
    if parts == [] then "" else if |parts| == 1 then parts[0] else parts[0] + sep + Join(parts[1..], sep)
  }

  lemma {:induction false} JoinSnoc(parts: seq<string>, x: string, sep: string)
    ensures Join(parts + [x], sep) == if parts == [] then x else Join(parts, sep) + sep + x
  {
    if parts == [] {
      assert parts + [x] == [x];
    } else {
      assert (parts + [x])[1..] == parts[1..] + [x];
      JoinSnoc(parts[1..], x, sep);
      if |parts| == 1 {
        assert parts[1..] == [];
      } else {
        JoinStep(parts[0], sep, Join(parts[1..], sep), x);
      }
    }
  }

  lemma JoinStep(first: string, sep: string, rest: string, x: string)
    ensures first + sep + (rest + sep + x) == first + sep + rest + sep + x
  {
  }

  lemma {:induction false} JoinGrows(parts: seq<string>, i: nat, sep: string)
    requires i <= |parts|
    ensures |Join(parts[..i], sep)| <= |Join(parts, sep)|
    decreases |parts| - i
  {
    hide Join;
    if i == |parts| {
      assert parts[..i] == parts;
    } else {
      assert parts[..i + 1] == parts[..i] + [parts[i]];
      JoinSnoc(parts[..i], parts[i], sep);
      if i == 0 { assert parts[..0] == []; JoinNothing(sep); }
      JoinGrows(parts, i + 1, sep);
    }
  }

  lemma JoinNothing(sep: string)
    ensures Join([], sep) == ""
  {
  }
}
