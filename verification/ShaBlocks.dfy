/**
 The SHA-1 and SHA-256 block functions (FIPS 180-4, sections 6.1.2 and 6.2.2), and the loops of nostr.c and
 rtc_common.c that compute them.
 */
module ShaBlocks {
  import opened Bytes

  type word = bv32

  type count = bv6

  function Rotl(x: word, n: count): word
    requires 0 < n < 32
  {
    (x << n) | (x >> (32 - n))
  }

  function Rotr(x: word, n: count): word
    requires 0 < n < 32
  {
    (x >> n) | (x << (32 - n))
  }

  function Ch(x: word, y: word, z: word): word { (x & y) ^ (!x & z) }
  function Maj(x: word, y: word, z: word): word { (x & y) ^ (x & z) ^ (y & z) }
  function Parity(x: word, y: word, z: word): word { x ^ y ^ z }

  // Addition modulo 2^32.
  function Add(x: word, y: word): word { x + y }
  function Sum4(x: word, y: word, z: word, w: word): word { x + y + z + w }
  function Sum5(x: word, y: word, z: word, w: word, v: word): word { x + y + z + w + v }

  function ToWord(v: nat): word
    requires v < 0x1_0000_0000
  {
    v as word
  }

  lemma ToWordIs(v: nat, w: word)
    requires v == w as int
    ensures ToWord(v) == w
  {
    assert ToWord(w as int) == w;
  }

  /** The `t`-th big-endian word of a block. */
  function WordAt(p: seq<byte>, t: nat): word
    requires |p| == 64 && t < 16
  {
    ToWord(Be32(p[4 * t], p[4 * t + 1], p[4 * t + 2], p[4 * t + 3]))
  }

  /** A word is its four octets, the first one the most significant. */
  lemma WordIs(p: seq<byte>, t: nat, a: byte, b: byte, c: byte, d: byte, w: word)
    requires |p| == 64 && t < 16 && p[4 * t] == a && p[4 * t + 1] == b && p[4 * t + 2] == c && p[4 * t + 3] == d
    requires w as int == a * 0x100_0000 + b * 0x1_0000 + c * 0x100 + d
    ensures WordAt(p, t) == w
  {
    hide ToWord;
    ToWordIs(Be32(a, b, c, d), w);
  }

  // ---- SHA-1 ----

  datatype Five = Five(a: word, b: word, c: word, d: word, e: word)

  function Mix1(x: word, y: word, z: word, w: word): word { Rotl(x ^ y ^ z ^ w, 1) }

  function W1(p: seq<byte>, t: nat): word
    requires |p| == 64
  {
    if t < 16 then WordAt(p, t)
    else Mix1(W1(p, t - 3), W1(p, t - 8), W1(p, t - 14), W1(p, t - 16))
  }

  function F1(t: nat, x: word, y: word, z: word): word {
    if t < 20 then Ch(x, y, z) else if t < 40 then Parity(x, y, z) else if t < 60 then Maj(x, y, z) else Parity(x, y, z)
  }

  function K1(t: nat): word {
    if t < 20 then 0x5A827999 else if t < 40 then 0x6ED9EBA1 else if t < 60 then 0x8F1BBCDC else 0xCA62C1D6
  }

  function Round1(s: Five, t: nat, w: word): Five {
    Five(Sum5(Rotl(s.a, 5), F1(t, s.b, s.c, s.d), s.e, K1(t), w), s.a, Rotl(s.b, 30), s.c, s.d)
  }

  /** The working variables after `t` rounds. */
  function Rounds1(h: Five, p: seq<byte>, t: nat): Five
    requires |p| == 64
  {
    if t == 0 then h else Round1(Rounds1(h, p, t - 1), t - 1, W1(p, t - 1))
  }

  function Sha1Compress(h: seq<word>, p: seq<byte>): (r: seq<word>)
    requires |h| == 5 && |p| == 64
    ensures |r| == 5
  {
    var s := Rounds1(Five(h[0], h[1], h[2], h[3], h[4]), p, 80);
    [Add(h[0], s.a), Add(h[1], s.b), Add(h[2], s.c), Add(h[3], s.d), Add(h[4], s.e)]
  }

  method Schedule1(p: seq<byte>) returns (w: array<word>)
    requires |p| == 64
    ensures fresh(w) && w.Length == 80
    ensures forall j :: 0 <= j < 80 ==> w[j] == W1(p, j)
  {
    hide Mix1, WordAt;
    w := new word[80];
    var i := 0;
    while i < 16
      invariant 0 <= i <= 16
      invariant forall j :: 0 <= j < i ==> w[j] == W1(p, j)
    {
      w[i] := WordAt(p, i);
      i := i + 1;
    }
    while i < 80
      invariant 16 <= i <= 80
      invariant forall j :: 0 <= j < i ==> w[j] == W1(p, j)
    {
      w[i] := Mix1(w[i - 3], w[i - 8], w[i - 14], w[i - 16]);
      i := i + 1;
    }
  }

  function OrCh(x: word, y: word, z: word): word { (x & y) | (!x & z) }
  function OrMaj(x: word, y: word, z: word): word { (x & y) | (x & z) | (y & z) }

  /** The code's `|` forms of Ch and Maj are the standard's `^` forms. */
  lemma OrForms(x: word, y: word, z: word)
    ensures OrCh(x, y, z) == Ch(x, y, z)
    ensures OrMaj(x, y, z) == Maj(x, y, z)
  {
    assert (x & y) | (!x & z) == (x & y) ^ (!x & z);
    OrMajIsMaj(x, y, z);
  }

  lemma OrMajIsMaj(x: word, y: word, z: word)
    ensures OrMaj(x, y, z) == Maj(x, y, z)
  {
    assert (x & y) | (x & z) | (y & z) == (x & y) ^ (x & z) ^ (y & z);
  }

  /** One pass of the round loop, in the code's own forms of the round function. */
  method Step1(s: Five, i: nat, w: word) returns (r: Five)
    ensures r == Round1(s, i, w)
  {
    hide Rotl, Sum5, Ch, Maj, OrCh, OrMaj, Parity;
    var f, k;
    OrForms(s.b, s.c, s.d);
    if i < 20 {
      f, k := OrCh(s.b, s.c, s.d), 0x5A827999;
    } else if i < 40 {
      f, k := Parity(s.b, s.c, s.d), 0x6ED9EBA1;
    } else if i < 60 {
      f, k := OrMaj(s.b, s.c, s.d), 0x8F1BBCDC;
    } else {
      f, k := Parity(s.b, s.c, s.d), 0xCA62C1D6;
    }
    var t := Sum5(Rotl(s.a, 5), f, s.e, k, w);
    r := Five(t, s.a, Rotl(s.b, 30), s.c, s.d);
  }

  method Sha1Block(h: array<word>, p: seq<byte>)
    requires h.Length == 5 && |p| == 64
    modifies h
    ensures h[..] == Sha1Compress(old(h[..]), p)
  {
    hide Add, Round1, W1;
    var w := Schedule1(p);
    ghost var start := Five(h[0], h[1], h[2], h[3], h[4]);
    var s := Five(h[0], h[1], h[2], h[3], h[4]);
    var i := 0;
    while i < 80
      invariant 0 <= i <= 80
      invariant s == Rounds1(start, p, i)
      invariant h[..] == old(h[..])
      invariant forall j :: 0 <= j < w.Length ==> w[j] == W1(p, j)
    {
      s := Step1(s, i, w[i]);
      i := i + 1;
    }
    h[0], h[1], h[2], h[3], h[4] := Add(h[0], s.a), Add(h[1], s.b), Add(h[2], s.c), Add(h[3], s.d), Add(h[4], s.e);
  }

  // ---- SHA-256 ----

  datatype Eight = Eight(a: word, b: word, c: word, d: word, e: word, f: word, g: word, h: word)

// The round constants, eight to a row.
  const ROW0: seq<word> := [0x428a2f98, 0x71374491, 0xb5c0fbcf, 0xe9b5dba5,
                             0x3956c25b, 0x59f111f1, 0x923f82a4, 0xab1c5ed5]
  const ROW1: seq<word> := [0xd807aa98, 0x12835b01, 0x243185be, 0x550c7dc3,
                             0x72be5d74, 0x80deb1fe, 0x9bdc06a7, 0xc19bf174]
  const ROW2: seq<word> := [0xe49b69c1, 0xefbe4786, 0x0fc19dc6, 0x240ca1cc,
                             0x2de92c6f, 0x4a7484aa, 0x5cb0a9dc, 0x76f988da]
  const ROW3: seq<word> := [0x983e5152, 0xa831c66d, 0xb00327c8, 0xbf597fc7,
                             0xc6e00bf3, 0xd5a79147, 0x06ca6351, 0x14292967]
  const ROW4: seq<word> := [0x27b70a85, 0x2e1b2138, 0x4d2c6dfc, 0x53380d13,
                             0x650a7354, 0x766a0abb, 0x81c2c92e, 0x92722c85]
  const ROW5: seq<word> := [0xa2bfe8a1, 0xa81a664b, 0xc24b8b70, 0xc76c51a3,
                             0xd192e819, 0xd6990624, 0xf40e3585, 0x106aa070]
  const ROW6: seq<word> := [0x19a4c116, 0x1e376c08, 0x2748774c, 0x34b0bcb5,
                             0x391c0cb3, 0x4ed8aa4a, 0x5b9cca4f, 0x682e6ff3]
  const ROW7: seq<word> := [0x748f82ee, 0x78a5636f, 0x84c87814, 0x8cc70208,
                             0x90befffa, 0xa4506ceb, 0xbef9a3f7, 0xc67178f2]
  const K256: seq<word> := ROW0 + (ROW1 + (ROW2 + (ROW3 + (ROW4 + (ROW5 + (ROW6 + ROW7))))))

  function K2(t: nat): word
    requires t < 64
  {
    K256[t]
  }

  function Sigma0(x: word): word { Rotr(x, 2) ^ Rotr(x, 13) ^ Rotr(x, 22) }
  function Sigma1(x: word): word { Rotr(x, 6) ^ Rotr(x, 11) ^ Rotr(x, 25) }
  function SmallSigma0(x: word): word { Rotr(x, 7) ^ Rotr(x, 18) ^ (x >> 3) }
  function SmallSigma1(x: word): word { Rotr(x, 17) ^ Rotr(x, 19) ^ (x >> 10) }

  function W2(p: seq<byte>, t: nat): word
    requires |p| == 64
  {
    if t < 16 then WordAt(p, t)
    else Sum4(W2(p, t - 16), SmallSigma0(W2(p, t - 15)), W2(p, t - 7), SmallSigma1(W2(p, t - 2)))
  }

  /** One round with its constant and its word. */
  function Mix2(s: Eight, k: word, w: word): Eight {
    var t1 := Sum5(s.h, Sigma1(s.e), Ch(s.e, s.f, s.g), k, w);
    var t2 := Add(Sigma0(s.a), Maj(s.a, s.b, s.c));
    Eight(Add(t1, t2), s.a, s.b, s.c, Add(s.d, t1), s.e, s.f, s.g)
  }

  function Round2(s: Eight, t: nat, w: word): Eight
    requires t < 64
  {
    Mix2(s, K2(t), w)
  }

  function Rounds2(h: Eight, p: seq<byte>, t: nat): Eight
    requires |p| == 64 && t <= 64
  {
    if t == 0 then h else Round2(Rounds2(h, p, t - 1), t - 1, W2(p, t - 1))
  }

  function Vars(s: Eight): (v: seq<word>)
    ensures |v| == 8
  {
    [s.a, s.b, s.c, s.d, s.e, s.f, s.g, s.h]
  }

  function AddEight(h: seq<word>, s: Eight): (r: seq<word>)
    requires |h| == 8
    ensures |r| == 8
  {
    var v := Vars(s);
    seq(8, i requires 0 <= i < 8 => Add(h[i], v[i]))
  }

  function Sha256Compress(h: seq<word>, p: seq<byte>): (r: seq<word>)
    requires |h| == 8 && |p| == 64
    ensures |r| == 8
  {
    AddEight(h, Rounds2(Eight(h[0], h[1], h[2], h[3], h[4], h[5], h[6], h[7]), p, 64))
  }

  method Schedule2(p: seq<byte>) returns (w: array<word>)
    requires |p| == 64
    ensures fresh(w) && w.Length == 64
    ensures forall j :: 0 <= j < 64 ==> w[j] == W2(p, j)
  {
    hide Sum4, SmallSigma0, SmallSigma1, WordAt;
    w := new word[64];
    var i := 0;
    while i < 16
      invariant 0 <= i <= 16
      invariant forall j :: 0 <= j < i ==> w[j] == W2(p, j)
    {
      w[i] := WordAt(p, i);
      i := i + 1;
    }
    while i < 64
      invariant 16 <= i <= 64
      invariant forall j :: 0 <= j < i ==> w[j] == W2(p, j)
    {
      w[i] := Sum4(w[i - 16], SmallSigma0(w[i - 15]), w[i - 7], SmallSigma1(w[i - 2]));
      i := i + 1;
    }
  }

  method Step2(s: Eight, i: nat, w: word) returns (r: Eight)
    requires i < 64
    ensures r == Round2(s, i, w)
  {
    hide Add, Sum5, Sigma0, Sigma1, Ch, Maj, K2;
    var t1 := Sum5(s.h, Sigma1(s.e), Ch(s.e, s.f, s.g), K2(i), w);
    var t2 := Add(Sigma0(s.a), Maj(s.a, s.b, s.c));
    r := Eight(Add(t1, t2), s.a, s.b, s.c, Add(s.d, t1), s.e, s.f, s.g);
  }

  method Sha256Block(h: array<word>, p: seq<byte>)
    requires h.Length == 8 && |p| == 64
    modifies h
    ensures h[..] == Sha256Compress(old(h[..]), p)
  {
    hide AddEight, Round2, W2;
    var w := Schedule2(p);
    ghost var start := Eight(h[0], h[1], h[2], h[3], h[4], h[5], h[6], h[7]);
    var s := Eight(h[0], h[1], h[2], h[3], h[4], h[5], h[6], h[7]);
    var i := 0;
    while i < 64
      invariant 0 <= i <= 64
      invariant s == Rounds2(start, p, i)
      invariant h[..] == old(h[..])
      invariant forall j :: 0 <= j < w.Length ==> w[j] == W2(p, j)
    {
      s := Step2(s, i, w[i]);
      i := i + 1;
    }
    AddInto(h, s);
  }

  method AddInto(h: array<word>, s: Eight)
    requires h.Length == 8
    modifies h
    ensures h[..] == AddEight(old(h[..]), s)
  {
    hide Add, Vars;
    var v := Vars(s);
    forall i | 0 <= i < 8 { h[i] := Add(h[i], v[i]); }
  }
}
