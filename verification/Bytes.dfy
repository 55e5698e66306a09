/** Bytes as C's `unsigned char` holds them, and the exclusive or of two of them, bit by bit. */
module Bytes {

  type Byte = b: int | 0 <= b < 256

  function XorBits(a: nat, b: nat, bits: nat): nat {
    if bits == 0 then 0 else 2 * XorBits(a / 2, b / 2, bits - 1) + (a % 2 + b % 2) % 2
  }

  function Bound(bits: nat): nat {
    if bits == 0 then 1 else 2 * Bound(bits - 1)
  }

  lemma {:induction false} XorBitsBound(a: nat, b: nat, bits: nat)
    ensures XorBits(a, b, bits) < Bound(bits)
  {
    if bits > 0 {
      XorBitsBound(a / 2, b / 2, bits - 1);
    }
  }

  lemma BitTwice(p: nat, q: nat)
    requires p < 2 && q < 2
    ensures ((p + q) % 2 + q) % 2 == p
  {
  }

  lemma XorBitsStep(a: nat, b: nat, bits: nat)
    requires bits > 0
    ensures XorBits(a, b, bits) / 2 == XorBits(a / 2, b / 2, bits - 1)
    ensures XorBits(a, b, bits) % 2 == (a % 2 + b % 2) % 2
  {
  }

  /** Applying the same mask twice changes nothing. */
  lemma {:induction false} XorBitsTwice(a: nat, b: nat, bits: nat)
    requires a < Bound(bits)
    ensures XorBits(XorBits(a, b, bits), b, bits) == a
  {
    if bits > 0 {
      assert a / 2 < Bound(bits - 1);
      XorBitsTwice(a / 2, b / 2, bits - 1);
      XorBitsStep(a, b, bits);
      XorBitsStep(XorBits(a, b, bits), b, bits);
      BitTwice(a % 2, b % 2);
      hide XorBits, Bound;
    }
  }

  function Xor(a: Byte, b: Byte): Byte {
    XorBitsBound(a, b, 8);
    assert Bound(8) == 256 by { BoundEight(); }
    XorBits(a, b, 8)
  }

  lemma {:induction false} XorBitsZero(a: nat, bits: nat)
    requires a < Bound(bits)
    ensures XorBits(a, 0, bits) == a
  {
    if bits > 0 {
      XorBitsZero(a / 2, bits - 1);
    }
  }

  lemma XorOne(h: nat)
    requires h < 128
    ensures Xor(2 * h, 1) == 2 * h + 1
  {
    BoundEight();
    XorBitsZero(h, 7);
    assert XorBits(2 * h, 1, 8) == 2 * XorBits(h, 0, 7) + 1;
  }

  lemma BoundEight()
    ensures Bound(8) == 256
  {
    assert Bound(4) == 16;
  }

  lemma XorTwice(a: Byte, b: Byte)
    ensures Xor(Xor(a, b), b) == a
  {
    BoundEight();
    XorBitsTwice(a, b, 8);
  }

  /** Bit `k` of a byte, the least significant one first. */
  function Bit(b: Byte, k: nat): nat
    requires k < 8
  {
    b / [1, 2, 4, 8, 16, 32, 64, 128][k] % 2
  }

  /** The same by halving. */
  function BitAt(n: nat, k: nat): nat {
    if k == 0 then n % 2 else BitAt(n / 2, k - 1)
  }

  lemma BitIs(b: Byte, k: nat)
    requires k < 8
    ensures Bit(b, k) == BitAt(b, k)
  {
    BitListed(b);
    BitAtFront(b);
    BitAtFront(b / 16);
    Halves(b);
    hide Bit;
    if k >= 4 {
      BitAtFour(b, k);
      hide BitAt;
    }
  }

  lemma BitListed(b: Byte)
    ensures Bit(b, 0) == b % 2 && Bit(b, 1) == b / 2 % 2 && Bit(b, 2) == b / 4 % 2 && Bit(b, 3) == b / 8 % 2
    ensures Bit(b, 4) == b / 16 % 2 && Bit(b, 5) == b / 32 % 2 && Bit(b, 6) == b / 64 % 2 && Bit(b, 7) == b / 128 % 2
  {
    assert b / 1 == b;
  }

  lemma BitAtFront(n: nat)
    ensures BitAt(n, 0) == n % 2 && BitAt(n, 1) == n / 2 % 2 && BitAt(n, 2) == n / 2 / 2 % 2
    ensures BitAt(n, 3) == n / 2 / 2 / 2 % 2
  {
    assert BitAt(n, 1) == BitAt(n / 2, 0) && BitAt(n, 2) == BitAt(n / 2, 1) == BitAt(n / 2 / 2, 0);
    assert BitAt(n, 3) == BitAt(n / 2, 2) == BitAt(n / 2 / 2, 1) == BitAt(n / 2 / 2 / 2, 0);
  }

  lemma BitAtFour(n: nat, k: nat)
    requires k >= 4
    ensures BitAt(n, k) == BitAt(n / 2 / 2 / 2 / 2, k - 4)
  {
    assert BitAt(n, k) == BitAt(n / 2, k - 1) == BitAt(n / 2 / 2, k - 2) == BitAt(n / 2 / 2 / 2, k - 3);
  }

  lemma {:induction false} XorBitsAt(a: nat, b: nat, bits: nat, k: nat)
    requires k < bits
    ensures BitAt(XorBits(a, b, bits), k) == if BitAt(a, k) == BitAt(b, k) then 0 else 1
  {
    XorBitsStep(a, b, bits);
    if k > 0 {
      XorBitsAt(a / 2, b / 2, bits - 1, k - 1);
    }
    hide XorBits;
  }

  /** Each bit of the result says whether the two bytes differ in it. */
  lemma XorBit(a: Byte, b: Byte, k: nat)
    requires k < 8
    ensures Bit(Xor(a, b), k) == if Bit(a, k) == Bit(b, k) then 0 else 1
  {
    BitIs(a, k);
    BitIs(b, k);
    BitIs(Xor(a, b), k);
    XorBitsAt(a, b, 8, k);
    hide XorBits, Bit, BitAt;
  }

  lemma Halves(n: nat)
    ensures n / 2 / 2 == n / 4 && n / 4 / 2 == n / 8 && n / 8 / 2 == n / 16 && n / 16 / 2 == n / 32
    ensures n / 32 / 2 == n / 64 && n / 64 / 2 == n / 128
  {
  }

  /** A byte is its bits. */
  lemma BitsDecide(a: Byte, b: Byte)
    requires forall k | 0 <= k < 8 :: Bit(a, k) == Bit(b, k)
    ensures a == b
  {
    BitsSum(a);
    BitsSum(b);
    hide Bit;
    assert Bit(a, 0) == Bit(b, 0) && Bit(a, 1) == Bit(b, 1) && Bit(a, 2) == Bit(b, 2) && Bit(a, 3) == Bit(b, 3);
    assert Bit(a, 4) == Bit(b, 4) && Bit(a, 5) == Bit(b, 5) && Bit(a, 6) == Bit(b, 6) && Bit(a, 7) == Bit(b, 7);
  }

  lemma BitsSum(a: Byte)
    ensures a == Bit(a, 0) + 2 * Bit(a, 1) + 4 * Bit(a, 2) + 8 * Bit(a, 3) + 16 * Bit(a, 4) + 32 * Bit(a, 5)
              + 64 * Bit(a, 6) + 128 * Bit(a, 7)
  {
    BitListed(a);
    hide Bit;
    FourBits(a, a / 2, a / 4, a / 8, a / 16);
    FourBits(a / 16, a / 32, a / 64, a / 128, 0);
  }

  lemma FourBits(n: nat, n1: nat, n2: nat, n3: nat, n4: nat)
    requires n1 == n / 2 && n2 == n1 / 2 && n3 == n2 / 2 && n4 == n3 / 2
    ensures n == n % 2 + 2 * (n1 % 2) + 4 * (n2 % 2) + 8 * (n3 % 2) + 16 * n4
  {
    Half(n, n1);
    Half(n1, n2);
    Half(n2, n3);
    Half(n3, n4);
  }

  lemma Half(n: nat, h: nat)
    requires h == n / 2
    ensures n == 2 * h + n % 2
  {
  }

  // ---------- numbers in network byte order ----------

  function Power256(k: nat): (p: nat)
    ensures p >= 1
  {
    if k == 0 then 1 else 256 * Power256(k - 1)
  }

  /** The `k` low bytes of `v`, most significant first. */
  function BigEndian(v: nat, k: nat): (b: seq<Byte>)
    ensures |b| == k
  {
    if k == 0 then [] else BigEndian(v / 256, k - 1) + [v % 256]
  }

  function FromBig(b: seq<Byte>): nat {
    if b == [] then 0 else FromBig(b[..|b| - 1]) * 256 + b[|b| - 1]
  }

  lemma {:induction false} FromBigEndian(v: nat, k: nat)
    requires v < Power256(k)
    ensures FromBig(BigEndian(v, k)) == v
  {
    if k > 0 {
      FromBigEndian(v / 256, k - 1);
      assert BigEndian(v, k)[..k - 1] == BigEndian(v / 256, k - 1);
    }
  }

  lemma {:induction false} BigEndianFromBig(b: seq<Byte>)
    ensures FromBig(b) < Power256(|b|)
    ensures BigEndian(FromBig(b), |b|) == b
  {
    if b != [] {
      BigEndianFromBig(b[..|b| - 1]);
      assert FromBig(b) / 256 == FromBig(b[..|b| - 1]);
    }
  }

  lemma PowerValues()
    ensures Power256(0) == 1 && Power256(1) == 0x100 && Power256(2) == 0x1_0000 && Power256(3) == 0x100_0000
    ensures Power256(4) == 0x1_0000_0000 && Power256(8) == 0x1_0000_0000_0000_0000
    ensures forall k: nat :: Power256(k + 1) == 256 * Power256(k)
  {
    assert Power256(2) == 65536;
    assert Power256(4) == 256 * 256 * Power256(2);
    assert Power256(6) == 256 * 256 * Power256(4);
  }

  /** Byte `i` of `k`, the most significant one first. */
  lemma {:induction false} BigEndianAt(v: nat, k: nat, i: nat)
    requires i < k
    ensures v / Power256(k - 1 - i) >= 0 && BigEndian(v, k)[i] == v / Power256(k - 1 - i) % 256
  {
    if i == k - 1 {
      assert v / 1 == v;
    } else {
      BigEndianAt(v / 256, k - 1, i);
      DivideTwice(v, Power256(k - 2 - i));
    }
  }

  lemma DivideTwice(v: nat, p: nat)
    requires p > 0
    ensures v / 256 / p == v / (256 * p)
  {
    var q, r := v / (256 * p), v % (256 * p);
    assert v == q * (256 * p) + r && 0 <= r < 256 * p;
    var t, u := r / 256, r % 256;
    assert q * (256 * p) == 256 * (q * p);
    assert v == 256 * (q * p + t) + u;
    OneQuotient(v / 256, p, q, t);
  }

  lemma OneQuotient(v: nat, p: nat, b: nat, r: nat)
    requires p > 0 && v == b * p + r && r < p
    ensures v / p == b && v % p == r
  {
    var d := v / p - b;
    assert v == v / p * p + v % p;
    assert d * p == r - v % p;
    if d > 0 {
      Grows(d, p);
    } else if d < 0 {
      Grows(-d, p);
    }
  }

  lemma Grows(d: int, p: nat)
    requires d >= 1
    ensures d * p >= p
  {
  }

  /** Eight bytes as a number, spelled out; so for two. */
  lemma FromBigSpelled(b: seq<Byte>)
    ensures var v: seq<int> := b; |b| == 2 ==> FromBig(b) == 0x100 * v[0] + v[1]
    ensures var v: seq<int> := b; |b| == 8 ==>
      FromBig(b) == 0x100_0000_0000_0000 * v[0] + 0x1_0000_0000_0000 * v[1] + 0x100_0000_0000 * v[2]
                    + 0x1_0000_0000 * v[3] + 0x100_0000 * v[4] + 0x1_0000 * v[5] + 0x100 * v[6] + v[7]
  {
    if |b| == 2 {
      FromBigLast(b);
      FromBigLast(b[..1]);
      assert b[..1][..0] == [];
    } else if |b| == 8 {
      FromBigPrefix(b, 8);
      FromBigPrefix(b, 7);
      FromBigPrefix(b, 6);
      FromBigPrefix(b, 5);
      FromBigPrefix(b, 4);
      FromBigPrefix(b, 3);
      FromBigPrefix(b, 2);
      FromBigPrefix(b, 1);
      assert b[..8] == b && b[..0] == [];
    }
    hide FromBig;
  }

  lemma FromBigLast(b: seq<Byte>)
    requires b != []
    ensures FromBig(b) == FromBig(b[..|b| - 1]) * 256 + b[|b| - 1]
    ensures FromBig([]) == 0
  {
  }

  lemma FromBigPrefix(b: seq<Byte>, k: nat)
    requires 0 < k <= |b|
    ensures FromBig(b[..k]) == FromBig(b[..k - 1]) * 256 + b[k - 1]
    ensures FromBig([]) == 0
  {
    assert b[..k][..k - 1] == b[..k - 1];
  }

  /** A C string's characters are bytes. */
  ghost predicate Latin(s: string) {
    forall i | 0 <= i < |s| :: s[i] as int < 256
  }

  function ToBytes(s: string): (b: seq<Byte>)
    requires Latin(s)
  {
    seq(|s|, i requires 0 <= i < |s| => s[i] as Byte)
  }

  function ToText(b: seq<Byte>): string {
    seq(|b|, i requires 0 <= i < |b| => b[i] as char)
  }

  lemma TextBytes(s: string)
    requires Latin(s)
    ensures ToText(ToBytes(s)) == s
    ensures |ToBytes(s)| == |s| && forall i | 0 <= i < |s| :: ToBytes(s)[i] == s[i] as int
  {
  }
}
