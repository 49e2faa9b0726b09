/**
 Base64 as nostr.c encodes the handshake key (RFC 4648, section 4), and the decoder it inverts.
 */
module Base64 {
  import opened Bytes

  /** The 64 symbols, by arithmetic on their ranges. */
  function Symbol(v: nat): char
    requires v < 64
  {
    if v < 26 then (65 + v) as char
    else if v < 52 then (71 + v) as char
    else if v < 62 then (v - 4) as char
    else if v == 62 then '+' else '/'
  }

  function SymbolValue(c: char): (v: nat)
    ensures v < 64
  {
    if 'A' <= c <= 'Z' then c as int - 65
    else if 'a' <= c <= 'z' then c as int - 71
    else if '0' <= c <= '9' then c as int + 4
    else if c == '+' then 62 else if c == '/' then 63 else 0
  }

  lemma SymbolReads(v: nat)
    requires v < 64
    ensures SymbolValue(Symbol(v)) == v && Symbol(v) != '='
  {
  }

  // The four sextets of three octets.
  function First(a: byte): (v: nat)
    ensures v < 64
  {
    a / 4
  }

  function Second(a: byte, b: byte): (v: nat)
    ensures v < 64
  {
    a % 4 * 16 + b / 16
  }

  function Third(b: byte, c: byte): (v: nat)
    ensures v < 64
  {
    b % 16 * 4 + c / 64
  }

  function Fourth(c: byte): (v: nat)
    ensures v < 64
  {
    c % 64
  }

  /** The k-th octet; a missing one counts as zero. */
  function OctetAt(s: seq<byte>, k: nat): byte { if k < |s| then s[k] else 0 }

  /** Up to three octets as four symbols, with padding for the missing ones. */
  function Group(s: seq<byte>): (r: string)
    ensures |r| == 4
  {
    var a, b, c := OctetAt(s, 0), OctetAt(s, 1), OctetAt(s, 2);
    [Symbol(First(a)), Symbol(Second(a, b)),
     if |s| > 1 then Symbol(Third(b, c)) else '=', if |s| > 2 then Symbol(Fourth(c)) else '=']
  }

  function Rest(s: seq<byte>): (r: seq<byte>)
    ensures s != [] ==> |r| < |s|
  {
    if |s| > 3 then s[3..] else []
  }

  function Encode(s: seq<byte>): string
    decreases |s|
  {
    if s == [] then "" else Group(s) + Encode(Rest(s))
  }

  /** The octets four symbols stand for. */
  function Ungroup(g: string): (s: seq<byte>)
    requires |g| == 4
  {
    var x, y, z, w := SymbolValue(g[0]), SymbolValue(g[1]), SymbolValue(g[2]), SymbolValue(g[3]);
    [x * 4 + y / 16]
    + (if g[2] == '=' then [] else [y % 16 * 16 + z / 4])
    + (if g[3] == '=' then [] else [z % 4 * 64 + w])
  }

  function Decode(t: string): seq<byte> {
    if |t| < 4 then [] else Ungroup(t[..4]) + Decode(t[4..])
  }

  lemma SextetsJoin(a: byte, b: byte, c: byte)
    ensures First(a) * 4 + Second(a, b) / 16 == a
    ensures Second(a, b) % 16 * 16 + Third(b, c) / 4 == b
    ensures Third(b, c) % 4 * 64 + Fourth(c) == c
  {
  }

  lemma GroupReads(s: seq<byte>)
    requires s != []
    ensures Ungroup(Group(s)) == if |s| > 3 then s[..3] else s
  {
    hide Symbol, SymbolValue, First, Second, Third, Fourth;
    var a, b, c := OctetAt(s, 0), OctetAt(s, 1), OctetAt(s, 2);
    SymbolReads(First(a));
    SymbolReads(Second(a, b));
    SymbolReads(Third(b, c));
    SymbolReads(Fourth(c));
    SextetsJoin(a, b, c);
  }

  /** Round trip, for every octet sequence. */
  lemma {:induction false} DecodeEncode(s: seq<byte>)
    ensures Decode(Encode(s)) == s
    decreases |s|
  {
    hide Group, Ungroup;
    if s != [] {
      var g, t := Group(s), Encode(Rest(s));
      GroupReads(s);
      DecodeEncode(Rest(s));
      assert (g + t)[..4] == g && (g + t)[4..] == t;
      if |s| > 3 { assert s[..3] + s[3..] == s; } else { assert s + [] == s; }
    }
  }

  /** Four symbols for every three octets begun. */
  lemma {:induction false} EncodeLength(s: seq<byte>)
    ensures |Encode(s)| == (|s| + 2) / 3 * 4
  {
    hide Group;
    if |s| > 3 { EncodeLength(s[3..]); }
  }

  function Joined(a: byte, b: byte, c: byte): nat { a * 0x1_0000 + b * 0x100 + c }

  /** The 24-bit detour of the C code: shifts of the joined octets give the four sextets. */
  lemma JoinedSextets(a: byte, b: byte, c: byte)
    ensures var trip := Joined(a, b, c);
            && trip / 0x4_0000 % 64 == First(a) && trip / 0x1000 % 64 == Second(a, b)
            && trip / 0x40 % 64 == Third(b, c) && trip % 64 == Fourth(c)
  {
    Shifted(a, b, c);
    hide Joined;
    LowSix(0, First(a));
    LowSix(a / 4, Second(a, b));
    LowSix(a * 16 + b / 16, Third(b, c));
    LowSix(a * 0x400 + b * 4 + c / 64, Fourth(c));
  }

  lemma LowSix(q: nat, r: nat)
    requires r < 64
    ensures (64 * q + r) % 64 == r
  {
  }

  lemma Shifted(a: byte, b: byte, c: byte)
    ensures var trip := Joined(a, b, c);
            && trip / 0x4_0000 == First(a) && trip / 0x1000 == 64 * (a / 4) + Second(a, b)
            && trip / 0x40 == 64 * (a * 16 + b / 16) + Third(b, c)
            && trip == 64 * (a * 0x400 + b * 4 + c / 64) + Fourth(c)
  {
  }

  const UPPER := "ABCDEFGHIJKLMNOPQRSTUVWXYZ"
  const LOWER := "abcdefghijklmnopqrstuvwxyz"
  const ALPHABET := UPPER + LOWER + "0123456789+/"

  lemma SymbolTable(v: nat)
    requires v < 64
    ensures Symbol(v) == ALPHABET[v]
  {
    var digits := "0123456789+/";
    hide ALPHABET;
    assert v < 26 ==> Symbol(v) == UPPER[v];
    assert 26 <= v < 52 ==> Symbol(v) == LOWER[v - 26];
    assert 52 <= v ==> Symbol(v) == digits[v - 52];
    AlphabetParts(v);
  }

  lemma AlphabetParts(v: nat)
    requires v < 64
    ensures |ALPHABET| == 64
    ensures ALPHABET[v] == if v < 26 then UPPER[v] else if v < 52 then LOWER[v - 26] else "0123456789+/"[v - 52]
  {
    assert |UPPER| == 26 && |LOWER| == 26 && |"0123456789+/"| == 12;
    hide UPPER, LOWER;
  }

  /** The six bits of symbol `k` of a group of three octets, the first symbol holding the highest. */
  function Sextet(group: nat, k: nat): (v: nat)
    requires k < 4
    ensures v < 64
  {
    group / (if k == 0 then 0x4_0000 else if k == 1 then 0x1000 else if k == 2 then 0x40 else 1) % 64
  }

  /** Every symbol of the text, from the octets alone; missing octets count as zero and end in padding. */
  lemma {:induction false} EncodeLayout(s: seq<byte>, j: nat)
    requires j < |Encode(s)|
    ensures var i, k := 3 * (j / 4), j % 4;
            var group := OctetAt(s, i) * 0x1_0000 + OctetAt(s, i + 1) * 0x100 + OctetAt(s, i + 2);
            Encode(s)[j] == if i + k > |s| then '=' else ALPHABET[Sextet(group, k)]
    decreases |s|
  {
    hide Group, Sextet, ALPHABET, Encode, OctetAt;
    EncodeStep(s);
    EncodeStep(Rest(s));
    if j < 4 {
      GroupLayout(s, j);
    } else {
      EncodeLayout(Rest(s), j - 4);
      OctetsAfter(s, 3 * (j / 4));
      assert 3 * ((j - 4) / 4) == 3 * (j / 4) - 3 && (j - 4) % 4 == j % 4;
    }
  }

  lemma OctetsAfter(s: seq<byte>, i: nat)
    requires |s| > 3 && i >= 3
    ensures OctetAt(Rest(s), i - 3) == OctetAt(s, i) && OctetAt(Rest(s), i - 2) == OctetAt(s, i + 1)
            && OctetAt(Rest(s), i - 1) == OctetAt(s, i + 2)
  {
  }

  lemma GroupLayout(s: seq<byte>, k: nat)
    requires s != [] && k < 4
    ensures var group := OctetAt(s, 0) * 0x1_0000 + OctetAt(s, 1) * 0x100 + OctetAt(s, 2);
            Group(s)[k] == if k > |s| then '=' else ALPHABET[Sextet(group, k)]
  {
    hide Symbol, ALPHABET, First, Second, Third, Fourth;
    var a, b, c := OctetAt(s, 0), OctetAt(s, 1), OctetAt(s, 2);
    JoinedSextets(a, b, c);
    SymbolTable(First(a));
    SymbolTable(Second(a, b));
    SymbolTable(Third(b, c));
    SymbolTable(Fourth(c));
  }

  /** One pass of the loop. */
  method WriteGroup(s: seq<byte>, out: array<char>, o: nat)
    requires s != [] && o + 4 <= out.Length
    modifies out
    ensures out[..o + 4] == old(out[..o]) + Group(s)
  {
    hide Symbol, Joined, First, Second, Third, Fourth;
    var a, b, c := OctetAt(s, 0), OctetAt(s, 1), OctetAt(s, 2);
    var trip := Joined(a, b, c);
    JoinedSextets(a, b, c);
    out[o], out[o + 1] := Symbol(trip / 0x4_0000 % 64), Symbol(trip / 0x1000 % 64);
    out[o + 2] := if |s| > 1 then Symbol(trip / 0x40 % 64) else '=';
    out[o + 3] := if |s| > 2 then Symbol(trip % 64) else '=';
    assert out[..o] == old(out[..o]);
    assert out[o..o + 4] == [out[o], out[o + 1], out[o + 2], out[o + 3]] == Group(s);
    assert out[..o + 4] == out[..o] + out[o..o + 4];
  }

  /** `base64_encode`: the length, or -1 when the text and its terminator do not fit. */
  method EncodeInto(input: seq<byte>, out: array<char>) returns (n: int)
    requires out.Length >= 1
    modifies out
    ensures n == -1 <==> input != [] && |Encode(input)| >= out.Length
    ensures n != -1 ==> n == |Encode(input)| < out.Length && out[..n] == Encode(input) && out[n] == '\0'
  {
    hide Group, Encode;
    var rest, o := input, 0;
    while rest != []
      invariant 0 <= o < out.Length && out[..o] + Encode(rest) == Encode(input)
      decreases |rest|
    {
      EncodeStep(rest);
      if o + 4 >= out.Length { return -1; }
      ghost var done := out[..o];
      WriteGroup(rest, out, o);
      Assoc(done, Group(rest), Encode(Rest(rest)));
      rest, o := Rest(rest), o + 4;
    }
    EncodeStep([]);
    assert out[..o] + [] == out[..o];
    out[o] := '\0';
    n := o;
  }

  lemma EncodeStep(s: seq<byte>)
    ensures Encode(s) == if s == [] then "" else Group(s) + Encode(Rest(s))
  {
    hide Group;
  }
}
