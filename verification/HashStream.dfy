/**
 The streaming half of SHA-1 and SHA-256 in nostr.c and rtc_common.c: a 64-byte partial block and a bit count
 split over two 32-bit words.  Both hashes share it, so it is modelled once over the block function.
 `Digest` is the one-shot definition of FIPS 180-4: pad (section 5.1.1), then fold the block function.
 */
module HashStream {
  import opened Bytes
  import opened CText
  import opened ShaBlocks

  datatype Alg = Sha1 | Sha256

  const M32 := 0x1_0000_0000
  const M64 := 0x1_0000_0000_0000_0000

  function Words(alg: Alg): nat { if alg.Sha1? then 5 else 8 }

  function InitialState(alg: Alg): (h: seq<word>)
    ensures |h| == Words(alg)
  {
    if alg.Sha1? then [0x67452301, 0xEFCDAB89, 0x98BADCFE, 0x10325476, 0xC3D2E1F0]
    else [0x6a09e667, 0xbb67ae85, 0x3c6ef372, 0xa54ff53a, 0x510e527f, 0x9b05688c, 0x1f83d9ab, 0x5be0cd19]
  }

  function Compress(alg: Alg, h: seq<word>, p: seq<byte>): (r: seq<word>)
    requires |h| == Words(alg) && |p| == 64
    ensures |r| == Words(alg)
  {
    if alg.Sha1? then Sha1Compress(h, p) else Sha256Compress(h, p)
  }

  // ---- one-shot definition ----

  /** Folding the block function over a whole number of blocks. */
  function Fold(alg: Alg, h: seq<word>, s: seq<byte>): (r: seq<word>)
    requires |h| == Words(alg) && |s| % 64 == 0
    ensures |r| == Words(alg)
    decreases |s|
  {
    if s == [] then h else Fold(alg, Compress(alg, h, s[..64]), s[64..])
  }

  /** The number of zero bytes between the 0x80 marker and the length. */
  function ZeroCount(n: nat): nat { (55 - n) % 64 }

  function Zeros(n: nat): (z: seq<byte>)
    ensures |z| == n
  {
    seq(n, _ => 0)
  }

  lemma ZerosGrow(n: nat)
    ensures Zeros(n) + [0] == Zeros(n + 1)
  {
  }

  function BitLength(n: nat): seq<byte> {
    var bits := 8 * n % M64;
    var hi, lo := bits / M32, bits % M32;
    [Octet(hi, 3), Octet(hi, 2), Octet(hi, 1), Octet(hi, 0), Octet(lo, 3), Octet(lo, 2), Octet(lo, 1), Octet(lo, 0)]
  }

  function Pad(m: seq<byte>): (p: seq<byte>)
    ensures |p| % 64 == 0
  {
    PadFits(|m|);
    m + [0x80] + Zeros(ZeroCount(|m|)) + BitLength(|m|)
  }

  function WordBytes(w: word): seq<byte> {
    [Octet(w as int, 3), Octet(w as int, 2), Octet(w as int, 1), Octet(w as int, 0)]
  }

  function StateBytes(h: seq<word>): (d: seq<byte>)
    ensures |d| == 4 * |h|
  {
    if h == [] then [] else WordBytes(h[0]) + StateBytes(h[1..])
  }

  function Digest(alg: Alg, m: seq<byte>): (d: seq<byte>)
    ensures |d| == 4 * Words(alg)
  {
    StateBytes(Fold(alg, InitialState(alg), Pad(m)))
  }

  lemma PadFits(n: nat)
    ensures (n + 1 + ZeroCount(n) + 8) % 64 == 0
  {
    var k := (55 - n) / 64;
    assert 55 - n == 64 * k + ZeroCount(n);
  }

  lemma BitLengthIs(n: nat)
    ensures |BitLength(n)| == 8 && BigEndian(BitLength(n)) == 8 * n % M64
  {
    var bits := 8 * n % M64;
    var hi, lo := bits / M32, bits % M32;
    Be32OfOctets(hi);
    Be32OfOctets(lo);
    hide Octet, BigEndian;
    var h := [Octet(hi, 3), Octet(hi, 2), Octet(hi, 1), Octet(hi, 0)];
    var l := [Octet(lo, 3), Octet(lo, 2), Octet(lo, 1), Octet(lo, 0)];
    BigEndianFour(Octet(hi, 3), Octet(hi, 2), Octet(hi, 1), Octet(hi, 0));
    BigEndianFour(Octet(lo, 3), Octet(lo, 2), Octet(lo, 1), Octet(lo, 0));
    assert BitLength(n) == h + l;
    BigEndianEight(h, l);
  }

  /** The padded message, octet by octet (section 5.1.1 of FIPS 180-4). */
  lemma PadLayout(m: seq<byte>)
    ensures var p, n := Pad(m), |m|;
            && |p| >= n + 9 && p[..n] == m && p[n] == 0x80
            && (forall i :: n < i < |p| - 8 ==> p[i] == 0)
            && BigEndian(p[|p| - 8..]) == 8 * n % M64
  {
    var n := |m|;
    BitLengthIs(n);
    hide BitLength, BigEndian, ZeroCount;
    var z, l := Zeros(ZeroCount(n)), BitLength(n);
    var body := m + [0x80] + z;
    assert Pad(m) == body + l;
    assert (body + l)[|body|..] == l;
    assert forall i :: 0 <= i < |z| ==> z[i] == 0;
  }

  /** The marker is followed by the fewest zeros that leave a whole number of blocks. */
  lemma PadIsMinimal(m: seq<byte>, k: nat)
    requires (|m| + 1 + k + 8) % 64 == 0
    ensures ZeroCount(|m|) <= k
    ensures |Pad(m)| <= |m| + 1 + k + 8
  {
    PadFits(|m|);
    var z := ZeroCount(|m|);
    var q := (|m| + 1 + k + 8) / 64;
    var r := (|m| + 1 + z + 8) / 64;
    assert k - z == 64 * (q - r);
  }

  /** The fill level reaches 56 at the computed number of zeros and not before. */
  lemma PaddingEnds(n: nat, j: nat)
    requires j <= ZeroCount(n)
    ensures (n + 1 + j) % 64 == 56 <==> j == ZeroCount(n)
  {
    PadFits(n);
    var z, a, b := ZeroCount(n), (n + 1 + j) / 64, (n + 1 + ZeroCount(n) + 8) / 64;
    assert n + 1 + z == 64 * (b - 1) + 56;
    if (n + 1 + j) % 64 == 56 {
      assert z - j == 64 * (b - 1 - a);
    }
  }

  lemma {:induction false} FoldAppend(alg: Alg, h: seq<word>, a: seq<byte>, b: seq<byte>)
    requires |h| == Words(alg) && |a| % 64 == 0 && |b| % 64 == 0
    ensures Fold(alg, h, a + b) == Fold(alg, Fold(alg, h, a), b)
    decreases |a|
  {
    hide Compress;
    if a == [] {
      assert a + b == b;
    } else {
      assert (a + b)[..64] == a[..64] && (a + b)[64..] == a[64..] + b;
      FoldAppend(alg, Compress(alg, h, a[..64]), a[64..], b);
    }
  }

  lemma FoldBlock(alg: Alg, h: seq<word>, p: seq<byte>)
    requires |h| == Words(alg) && |p| == 64
    ensures Fold(alg, h, p) == Compress(alg, h, p)
  {
    hide Compress;
    assert p[..64] == p && p[64..] == [];
  }

  /** `c->lo < old` detects exactly the carry out of the low word. */
  lemma CarryOut(lo: nat, n: nat)
    requires lo < M32
    ensures var lo' := (lo + 8 * n) % M32;
            lo + 8 * n == (n / 0x2000_0000 + (if lo' < lo then 1 else 0)) * M32 + lo'
  {
    var q, r := n / 0x2000_0000, 8 * n % M32;
    assert 8 * n == q * M32 + r;
    if lo + r < M32 {
      DivMod32(lo + 8 * n, q, lo + r);
    } else {
      DivMod32(lo + 8 * n, q + 1, lo + r - M32);
    }
  }

  lemma DivMod32(v: nat, q: nat, r: nat)
    requires v == q * M32 + r && r < M32
    ensures v / M32 == q && v % M32 == r
  {
  }

  /** `lo` and `hi` after counting `n` more bytes. */
  function CountLo(lo: nat, n: nat): nat { (lo + 8 * n) % M32 }

  function CountHi(hi: nat, lo: nat, n: nat): nat {
    ((if CountLo(lo, n) < lo then (hi + 1) % M32 else hi) + n / 0x2000_0000) % M32
  }

  /** The two words hold the bit count of `total` bytes, modulo 2^64. */
  predicate Counts(hi: nat, lo: nat, total: nat) {
    hi < M32 && lo < M32 && hi * M32 + lo == 8 * total % M64
  }

  /** The split counter: low word with carry, high word with the bits that `n << 3` loses. */
  lemma CountBits(hi: nat, lo: nat, total: nat, n: nat)
    requires Counts(hi, lo, total)
    ensures Counts(CountHi(hi, lo, n), CountLo(lo, n), total + n)
  {
    CarryOut(lo, n);
    var lo' := CountLo(lo, n);
    var c, q := if lo' < lo then 1 else 0, n / 0x2000_0000;
    HighWord(hi + c, q);
    SplitCount(8 * total, hi, lo, 8 * n, hi + c + q, lo');
  }

  lemma HighWord(a: nat, q: nat)
    ensures (a % M32 + q) % M32 == (a + q) % M32
  {
  }

  lemma SplitCount(bits: nat, hi: nat, lo: nat, more: nat, h: nat, lo': nat)
    requires hi * M32 + lo == bits % M64 && lo' < M32
    requires hi * M32 + lo + more == h * M32 + lo'
    ensures h % M32 * M32 + lo' == (bits + more) % M64
  {
    var x, y := bits / M64, h / M32;
    assert bits + more == (x + y) * M64 + (h % M32 * M32 + lo');
    ModOf(bits + more, x + y, h % M32 * M32 + lo');
  }

  lemma ModOf(v: nat, q: nat, r: nat)
    requires v == q * M64 + r && r < M64
    ensures v % M64 == r
  {
  }

  // ---- what has been compressed, and what waits in the buffer ----

  function Tail(m: seq<byte>): (t: seq<byte>)
    ensures |t| == |m| % 64
  {
    m[|m| - |m| % 64..]
  }

  function StateAfter(alg: Alg, m: seq<byte>): (h: seq<word>)
    ensures |h| == Words(alg)
  {
    Fold(alg, InitialState(alg), m[..|m| - |m| % 64])
  }

  lemma StartState(alg: Alg)
    ensures Tail([]) == [] && StateAfter(alg, []) == InitialState(alg) && Counts(0, 0, 0)
  {
    hide InitialState, Compress, Counts;
    assert StateAfter(alg, []) == Fold(alg, InitialState(alg), []);
    StartCount();
  }

  lemma StartCount()
    ensures Counts(0, 0, 0)
  {
  }

  lemma StateOfBlocks(alg: Alg, m: seq<byte>)
    requires |m| % 64 == 0
    ensures StateAfter(alg, m) == Fold(alg, InitialState(alg), m)
  {
    hide Fold, InitialState;
    assert m[..|m|] == m;
  }

  /** Marker and zeros fill the last block up to the length. */
  lemma PaddedLength(n: nat)
    ensures (n + 1 + ZeroCount(n)) % 64 == 56
  {
    PaddingEnds(n, ZeroCount(n));
  }

  lemma PadIs(m: seq<byte>, body: seq<byte>)
    requires body == m + [0x80] + Zeros(ZeroCount(|m|))
    ensures Pad(m) == body + BitLength(|m|) && |body| % 64 == 56
  {
    hide BitLength, Zeros;
    PaddedLength(|m|);
  }

  lemma LengthField(n: nat)
    ensures |BitLength(n)| == 8
  {
    hide Octet;
  }

  lemma TailGrows(alg: Alg, m: seq<byte>, part: seq<byte>)
    requires |Tail(m)| + |part| < 64
    ensures Tail(m + part) == Tail(m) + part && StateAfter(alg, m + part) == StateAfter(alg, m)
  {
    hide Fold, InitialState;
    var q, r := |m| / 64, |m| % 64 + |part|;
    assert |m + part| == 64 * q + r;
    assert (m + part)[..64 * q] == m[..64 * q];
  }

  lemma TailCompletes(alg: Alg, m: seq<byte>, part: seq<byte>)
    requires |Tail(m)| + |part| == 64
    ensures Tail(m + part) == [] && StateAfter(alg, m + part) == Compress(alg, StateAfter(alg, m), Tail(m) + part)
  {
    hide Fold, Compress, InitialState;
    var q := |m| / 64;
    var whole := m + part;
    assert |whole| == 64 * (q + 1);
    assert whole[..|whole|] == m[..64 * q] + (Tail(m) + part);
    FoldAppend(alg, InitialState(alg), m[..64 * q], Tail(m) + part);
    FoldBlock(alg, StateAfter(alg, m), Tail(m) + part);
  }

  lemma {:induction false} StateOctets(h: seq<word>, i: nat)
    requires i < |h|
    ensures StateBytes(h)[4 * i..4 * i + 4] == WordBytes(h[i])
  {
    hide WordBytes;
    var first, more := WordBytes(h[0]), StateBytes(h[1..]);
    WordLength(h[0]);
    if i == 0 {
      assert (first + more)[..4] == first;
    } else {
      StateOctets(h[1..], i - 1);
      assert (first + more)[4 * i..4 * i + 4] == more[4 * (i - 1)..4 * (i - 1) + 4];
    }
  }

  lemma WordLength(w: word)
    ensures |WordBytes(w)| == 4
  {
  }

  lemma WordIsBigEndian(w: word)
    ensures BigEndian(WordBytes(w)) == w as int
  {
    var n := w as int;
    Be32OfOctets(n);
    hide Octet, BigEndian;
    BigEndianFour(Octet(n, 3), Octet(n, 2), Octet(n, 1), Octet(n, 0));
  }

  /** The digest is the final state, word by word, the most significant octet of each word first. */
  lemma DigestWords(alg: Alg, m: seq<byte>, i: nat)
    requires i < Words(alg)
    ensures |Digest(alg, m)| == 4 * Words(alg)
    ensures BigEndian(Digest(alg, m)[4 * i..4 * i + 4]) == Fold(alg, InitialState(alg), Pad(m))[i] as int
  {
    hide Fold, Pad, InitialState, StateBytes, WordBytes, BigEndian;
    var h := Fold(alg, InitialState(alg), Pad(m));
    StateOctets(h, i);
    WordIsBigEndian(h[i]);
  }

  /** The digest in terms of the streaming state once marker and zeros are in. */
  lemma DigestOfTail(alg: Alg, m: seq<byte>, body: seq<byte>)
    requires body == m + [0x80] + Zeros(ZeroCount(|m|))
    ensures |Tail(body)| == 56
    ensures |BitLength(|m|)| == 8
    ensures Digest(alg, m) == StateBytes(Compress(alg, StateAfter(alg, body), Tail(body) + BitLength(|m|)))
  {
    hide Fold, Compress, InitialState, StateBytes, Pad, StateAfter, Tail, BitLength, Zeros;
    PadIs(m, body);
    LengthField(|m|);
    TailCompletes(alg, body, BitLength(|m|));
    StateOfBlocks(alg, Pad(m));
  }

  // ---- the streaming context ----

  /** `sha1_ctx` and `sha256_ctx`; `absorbed` is everything fed in so far. */
  class HashCtx {
    const alg: Alg
    const h: array<word>
    const buf: array<byte>
    var lo: nat
    var hi: nat
    var used: nat
    ghost var absorbed: seq<byte>

    /** The block state and the buffer agree with what was absorbed. */
    ghost predicate InStep()
      reads this, h, buf
    {
      && h.Length == Words(alg) && buf.Length == 64
      && used == |Tail(absorbed)|
      && buf[..used] == Tail(absorbed)
      && h[..] == StateAfter(alg, absorbed)
    }

    ghost predicate Valid()
      reads this, h, buf
    {
      InStep() && Counts(hi, lo, |absorbed|)
    }

    constructor (alg: Alg)
      ensures Valid() && absorbed == [] && this.alg == alg && fresh(h) && fresh(buf)
    {
      hide InitialState, StateAfter, Tail, Counts;
      this.alg := alg;
      var init := InitialState(alg);
      h := new word[Words(alg)](i requires 0 <= i < |init| => init[i]);
      buf := new byte[64];
      lo, hi, used, absorbed := 0, 0, 0, [];
      new;
      assert h[..] == init;
      StartState(alg);
    }

    /** `sha1_block` or `sha256_block` on the full buffer. */
    method Block()
      requires h.Length == Words(alg) && buf.Length == 64
      modifies h
      ensures h[..] == Compress(alg, old(h[..]), buf[..])
    {
      hide Sha1Compress, Sha256Compress;
      if alg.Sha1? { Sha1Block(h, buf[..]); } else { Sha256Block(h, buf[..]); }
    }

    /** `sha1_update` / `sha256_update`. */
    method Update(p: seq<byte>)
      requires Valid()
      modifies this`lo, this`hi, this`used, this`absorbed, h, buf
      ensures Valid() && absorbed == old(absorbed) + p
    {
      hide Tail, StateAfter, Counts;
      CountBits(hi, lo, |absorbed|, |p|);
      AddCount(|p|);
      var i := 0;
      while i < |p|
        invariant 0 <= i <= |p| && absorbed == old(absorbed) + p[..i]
        invariant InStep() && Counts(hi, lo, |old(absorbed)| + |p|)
      {
        var take := Min(64 - used, |p| - i);
        Absorb(p[i..i + take]);
        Assoc(old(absorbed), p[..i], p[i..i + take]);
        assert p[..i + take] == p[..i] + p[i..i + take];
        i := i + take;
      }
      assert p[..i] == p;
    }

    /** The counter part of `update`. */
    method AddCount(n: nat)
      modifies this`lo, this`hi
      ensures lo == CountLo(old(lo), n) && hi == CountHi(old(hi), old(lo), n)
    {
      var oldLo := lo;
      lo := (lo + 8 * n) % M32;
      if lo < oldLo { hi := (hi + 1) % M32; }
      hi := (hi + n / 0x2000_0000) % M32;
    }

    /** One pass of the copy loop: at most the rest of the block, compressed once it is full. */
    method Absorb(part: seq<byte>)
      requires InStep() && 0 < |part| <= 64 - used
      modifies this`used, this`absorbed, h, buf
      ensures InStep() && absorbed == old(absorbed) + part
    {
      hide Tail, StateAfter, Compress;
      ghost var waiting := Tail(absorbed);
      ghost var state := h[..];
      assert buf[..used] == waiting && state == StateAfter(alg, absorbed);
      forall k | 0 <= k < |part| { buf[used + k] := part[k]; }
      used := used + |part|;
      assert buf[..used] == waiting + part && h[..] == state;
      if used == 64 {
        assert buf[..] == waiting + part by { assert buf[..] == buf[..used]; }
        Block();
        assert h[..] == Compress(alg, state, waiting + part);
        used := 0;
        TailCompletes(alg, absorbed, part);
        assert h[..] == StateAfter(alg, absorbed + part);
      } else {
        TailGrows(alg, absorbed, part);
        assert h[..] == StateAfter(alg, absorbed + part);
      }
      absorbed := absorbed + part;
    }

    /** `sha1_final` / `sha256_final`. */
    method Final() returns (out: seq<byte>)
      requires Valid()
      modifies this`lo, this`hi, this`used, this`absorbed, h, buf
      ensures out == Digest(alg, old(absorbed))
    {
      hide Tail, StateAfter, Compress, BitLength, Digest, Counts;
      ghost var m := absorbed;
      var l, u := lo, hi;
      AddPadding();
      DigestOfTail(alg, m, absorbed);
      PutLength(u, l, |m|);
      assert buf[..] == Tail(absorbed) + BitLength(|m|) by {
        assert buf[..] == buf[..56] + buf[56..];
      }
      Block();
      out := PutState();
    }

    /** The marker byte and the zeros, fed through `update` until eight bytes are left in the block. */
    method AddPadding()
      requires Valid()
      modifies this`lo, this`hi, this`used, this`absorbed, h, buf
      ensures Valid() && used == 56
      ensures absorbed == old(absorbed) + [0x80] + Zeros(ZeroCount(old(|absorbed|)))
    {
      hide StateAfter, Tail, Counts, ZeroCount, Zeros;
      ghost var m := absorbed;
      Update([0x80]);
      ghost var j := 0;
      PaddingEnds(|m|, j);
      assert absorbed == m + [0x80] + Zeros(0);
      while used != 56
        invariant Valid() && 0 <= j <= ZeroCount(|m|)
        invariant absorbed == m + [0x80] + Zeros(j)
        invariant used == 56 <==> j == ZeroCount(|m|)
        decreases ZeroCount(|m|) - j
      {
        Update([0]);
        ZerosGrow(j);
        Assoc(m + [0x80], Zeros(j), [0]);
        j := j + 1;
        PaddingEnds(|m|, j);
      }
    }

    /** The eight length bytes, most significant first. */
    method PutLength(u: nat, l: nat, ghost n: nat)
      requires buf.Length == 64 && Counts(u, l, n)
      modifies buf
      ensures buf[56..] == BitLength(n) && buf[..56] == old(buf[..56])
    {
      hide Octet;
      DivMod32(8 * n % M64, u, l);
      var lenb: seq<byte> := [Octet(u, 3), Octet(u, 2), Octet(u, 1), Octet(u, 0), Octet(l, 3), Octet(l, 2),
          Octet(l, 1), Octet(l, 0)];
      forall k | 0 <= k < 8 { buf[56 + k] := lenb[k]; }
      assert buf[56..] == lenb;
    }

    /** The state words written out in big-endian order. */
    method PutState() returns (out: seq<byte>)
      ensures out == StateBytes(h[..])
    {
      out := [];
      var i := h.Length;
      while i > 0
        invariant 0 <= i <= h.Length && out == StateBytes(h[i..])
      {
        i := i - 1;
        out := WordBytes(h[i]) + out;
        assert h[i..][1..] == h[i + 1..];
      }
    }
  }

  /**
   Streaming equals one-shot hashing for every way of cutting the input into chunks; `sha1_raw`,
   `sha256_hex` and `rtc_sha1_hex` are the case of a single chunk.
   */
  method HashChunks(alg: Alg, chunks: seq<seq<byte>>) returns (out: seq<byte>)
    ensures out == Digest(alg, Flatten(chunks))
  {
    hide Digest, Tail, StateAfter, Counts;
    var c := new HashCtx(alg);
    var i := 0;
    while i < |chunks|
      invariant 0 <= i <= |chunks| && c.Valid() && c.absorbed == Flatten(chunks[..i])
    {
      c.Update(chunks[i]);
      FlattenSnoc(chunks[..i], chunks[i]);
      assert chunks[..i + 1] == chunks[..i] + [chunks[i]];
      i := i + 1;
    }
    assert chunks[..i] == chunks;
    out := c.Final();
  }

  function Hex(d: seq<byte>): string {
    if d == [] then "" else [HexDigit(d[0] / 16), HexDigit(d[0] % 16)] + Hex(d[1..])
  }

  /** Two digits for each octet, which read as its value, high digit first. */
  lemma {:induction false} HexReads(d: seq<byte>, i: nat)
    requires i < |d|
    ensures |Hex(d)| == 2 * |d|
    ensures HexVal(Hex(d)[2 * i]) * 16 + HexVal(Hex(d)[2 * i + 1]) == d[i]
  {
    HexLength(d);
    HexDigitVal(d[0] / 16);
    HexDigitVal(d[0] % 16);
    if i > 0 {
      HexLength(d[1..]);
      HexReads(d[1..], i - 1);
    }
  }

  lemma {:induction false} HexLength(d: seq<byte>)
    ensures |Hex(d)| == 2 * |d|
  {
    if d != [] { HexLength(d[1..]); }
  }

  /** `sha256_hex` and `rtc_sha1_hex`. */
  method HashHex(alg: Alg, data: seq<byte>) returns (out: string)
    ensures out == Hex(Digest(alg, data)) && |out| == 8 * Words(alg)
  {
    hide Digest;
    assert Flatten([data]) == data + Flatten([data][1..]) == data;
    var dig := HashChunks(alg, [data]);
    out := "";
    var i := |dig|;
    while i > 0
      invariant 0 <= i <= |dig| && out == Hex(dig[i..]) && |out| == 2 * (|dig| - i)
    {
      i := i - 1;
      out := [HexDigit(dig[i] / 16), HexDigit(dig[i] % 16)] + out;
      assert dig[i..][1..] == dig[i + 1..];
    }
  }
}
