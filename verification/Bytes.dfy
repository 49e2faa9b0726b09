/** Octets as the C code sees them: `unsigned char` values with the bit operations it applies to them. */
module Bytes {
  type byte = x: int | 0 <= x < 256

  function Pow2(n: nat): (p: nat)
    ensures p >= 1
  {
    if n == 0 then 1 else 2 * Pow2(n - 1)
  }

  /** Exclusive or of the low `n` bits. */
  function XorBits(a: nat, b: nat, n: nat): (r: nat)
    ensures r < Pow2(n)
  {
    if n == 0 then 0 else 2 * XorBits(a / 2, b / 2, n - 1) + (if a % 2 == b % 2 then 0 else 1)
  }

  lemma {:induction false} XorBitsInvolution(a: nat, b: nat, n: nat)
    requires a < Pow2(n)
    ensures XorBits(XorBits(a, b, n), b, n) == a
  {
    if n > 0 {
      XorBitsInvolution(a / 2, b / 2, n - 1);
      Halve(XorBits(a / 2, b / 2, n - 1), a % 2 == b % 2);
      Halve(a / 2, a % 2 == 0);
    }
  }

  lemma Halve(r: nat, even: bool)
    ensures var x := 2 * r + (if even then 0 else 1);
            x / 2 == r && (x % 2 == 0 <==> even)
  {
  }

  /** The C expression `a ^ b` on octets. */
  function Xor(a: byte, b: byte): byte {
    assert Pow2(8) == 256;
    XorBits(a, b, 8)
  }

  /** `(n >> k) & 1`. */
  function Bit(n: nat, k: nat): nat { if k == 0 then n % 2 else Bit(n / 2, k - 1) }

  lemma {:induction false} BitOfXorBits(a: nat, b: nat, n: nat, k: nat)
    requires k < n
    ensures Bit(XorBits(a, b, n), k) == (Bit(a, k) + Bit(b, k)) % 2
  {
    Halve(XorBits(a / 2, b / 2, n - 1), a % 2 == b % 2);
    if k > 0 { BitOfXorBits(a / 2, b / 2, n - 1, k - 1); }
  }

  /** Every bit of an exclusive or is the sum of the two bits modulo 2. */
  lemma XorIsBitwise(a: byte, b: byte)
    ensures forall k :: 0 <= k < 8 ==> Bit(Xor(a, b), k) == (Bit(a, k) + Bit(b, k)) % 2
  {
    forall k | 0 <= k < 8 ensures Bit(Xor(a, b), k) == (Bit(a, k) + Bit(b, k)) % 2 { BitOfXorBits(a, b, 8, k); }
  }

  lemma XorInvolution(a: byte, b: byte)
    ensures Xor(Xor(a, b), b) == a
  {
    assert Pow2(8) == 256;
    XorBitsInvolution(a, b, 8);
  }

  /** The low octet of a machine word, `(unsigned char)(v >> 8 * k)`. */
  function Octet(v: nat, k: nat): byte {
    if k == 0 then v % 0x100 else Octet(v / 0x100, k - 1)
  }

  /** Big-endian reading, `(hi << 8) | lo`. */
  function Be16(hi: byte, lo: byte): (r: nat)
    ensures r < 0x1_0000
  {
    hi as nat * 0x100 + lo as nat
  }

  function Be32(a: byte, b: byte, c: byte, d: byte): (r: nat)
    ensures r < 0x1_0000_0000
  {
    (Be16(a, b) * 0x100 + c) * 0x100 + d
  }

  lemma OctetsOfBe16(a: byte, b: byte)
    ensures Octet(Be16(a, b), 1) == a && Octet(Be16(a, b), 0) == b
  {
    assert Be16(a, b) / 0x100 == a;
  }

  lemma OctetsOfBe32(a: byte, b: byte, c: byte, d: byte)
    ensures var n := Be32(a, b, c, d);
            Octet(n, 3) == a && Octet(n, 2) == b && Octet(n, 1) == c && Octet(n, 0) == d
  {
    var n := Be32(a, b, c, d);
    var m := Be16(a, b) * 0x100 + c;
    assert n / 0x100 == m && n % 0x100 == d;
    assert m / 0x100 == Be16(a, b) && m % 0x100 == c;
    OctetsOfBe16(a, b);
    assert Octet(n, 3) == Octet(m, 2) == Octet(Be16(a, b), 1);
    assert Octet(n, 2) == Octet(m, 1) == Octet(Be16(a, b), 0);
  }

  lemma Be16OfOctets(n: nat)
    requires n < 0x1_0000
    ensures Be16(Octet(n, 1), Octet(n, 0)) == n
  {
    var q := n / 0x100;
    assert q < 0x100;
    assert Octet(n, 1) == Octet(q, 0) == q;
  }

  lemma Be32OfOctets(n: nat)
    requires n < 0x1_0000_0000
    ensures Be32(Octet(n, 3), Octet(n, 2), Octet(n, 1), Octet(n, 0)) == n
  {
    var m := n / 0x100;
    var h := m / 0x100;
    Be16OfOctets(h);
    assert Octet(n, 3) == Octet(m, 2) == Octet(h, 1);
    assert Octet(n, 2) == Octet(m, 1) == Octet(h, 0);
  }

  /** The number whose octets these are, the most significant first. */
  function BigEndian(s: seq<byte>): nat {
    if s == [] then 0 else 0x100 * BigEndian(s[..|s| - 1]) + s[|s| - 1] as nat
  }

  lemma BigEndianOne(a: byte)
    ensures BigEndian([a]) == a
  {
    assert [a][..0] == [];
  }

  lemma BigEndianTwo(a: byte, b: byte)
    ensures BigEndian([a, b]) == Be16(a, b)
  {
    assert [a, b][..1] == [a];
    BigEndianOne(a);
  }

  lemma BigEndianFour(a: byte, b: byte, c: byte, d: byte)
    ensures BigEndian([a, b, c, d]) == Be32(a, b, c, d)
  {
    assert [a, b, c, d][..3] == [a, b, c] && [a, b, c][..2] == [a, b];
    BigEndianTwo(a, b);
  }

  lemma BigEndianSnoc(s: seq<byte>, x: byte)
    ensures BigEndian(s + [x]) == 0x100 * BigEndian(s) + x
  {
    assert (s + [x])[..|s|] == s;
  }

  lemma BigEndianEight(hi: seq<byte>, lo: seq<byte>)
    requires |lo| == 4
    ensures BigEndian(hi + lo) == BigEndian(hi) * 0x1_0000_0000 + BigEndian(lo)
  {
    BigEndianFour(lo[0], lo[1], lo[2], lo[3]);
    assert lo == [lo[0], lo[1], lo[2], lo[3]];
    assert hi + lo == (((hi + [lo[0]]) + [lo[1]]) + [lo[2]]) + [lo[3]];
    hide BigEndian;
    BigEndianSnoc(hi, lo[0]);
    BigEndianSnoc(hi + [lo[0]], lo[1]);
    BigEndianSnoc((hi + [lo[0]]) + [lo[1]], lo[2]);
    BigEndianSnoc(((hi + [lo[0]]) + [lo[1]]) + [lo[2]], lo[3]);
  }

  function Min(a: int, b: int): int {
    if a < b then a else b
  }

  lemma Assoc<T>(a: seq<T>, b: seq<T>, c: seq<T>)
    ensures (a + b) + c == a + (b + c)
  {
  }

  lemma DropDrop<T>(s: seq<T>, i: nat, j: nat)
    requires i + j <= |s|
    ensures s[i..][j..] == s[i + j..]
  {
  }

  /** Concatenation of a list of pieces. */
  function Flatten<T>(pieces: seq<seq<T>>): seq<T> {
    if pieces == [] then [] else pieces[0] + Flatten(pieces[1..])
  }

  lemma {:induction false} FlattenAppend<T>(a: seq<seq<T>>, b: seq<seq<T>>)
    ensures Flatten(a + b) == Flatten(a) + Flatten(b)
  {
    if a == [] {
      assert a + b == b;
    } else {
      FlattenAppend(a[1..], b);
      assert (a + b)[0] == a[0] && (a + b)[1..] == a[1..] + b;
      Assoc(a[0], Flatten(a[1..]), Flatten(b));
    }
  }

  lemma FlattenSnoc<T>(a: seq<seq<T>>, x: seq<T>)
    ensures Flatten(a + [x]) == Flatten(a) + x
  {
    FlattenAppend(a, [x]);
    assert Flatten([x]) == x + Flatten([x][1..]);
  }
}
