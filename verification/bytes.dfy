/** Bytes, words and an abstract block cipher. A cipher is any pair of functions on blocks of sixteen bytes
    of which one undoes the other. */
module Bytes {
  newtype byte = b: int | 0 <= b < 0x100

  const BLOCK: nat := 16

  datatype Cipher = Cipher(enc: seq<byte> -> seq<byte>, dec: seq<byte> -> seq<byte>)

  ghost predicate IsCipher(c: Cipher) {
    && (forall b: seq<byte> :: |b| == BLOCK ==> |c.enc(b)| == BLOCK && c.dec(c.enc(b)) == b)
    && (forall b: seq<byte> :: |b| == BLOCK ==> |c.dec(b)| == BLOCK)
  }

  function Zeros(n: nat): (z: seq<byte>)
    ensures |z| == n
  {
    seq(n, _ => 0)
  }

  /** Block `i` of a text. */
  function Block(text: seq<byte>, i: nat): (b: seq<byte>)
    requires (i + 1) * BLOCK <= |text|
    ensures |b| == BLOCK
  {
    text[i * BLOCK..(i + 1) * BLOCK]
  }

  lemma BlockBehind(first: seq<byte>, rest: seq<byte>, i: nat)
    requires |first| == BLOCK && (i + 1) * BLOCK <= |first + rest|
    ensures Block(first + rest, i) == if i == 0 then first else Block(rest, i - 1)
  {
    if i == 0 {
      assert (first + rest)[0 * BLOCK..(0 + 1) * BLOCK] == first;
    } else {
      assert (first + rest)[i * BLOCK..(i + 1) * BLOCK] == rest[(i - 1) * BLOCK..i * BLOCK];
    }
  }

  // ---- exclusive or ----------------------------------------------------------------------------

  function Pow2(k: nat): (p: nat)
    ensures p > 0
  {
    if k == 0 then 1 else 2 * Pow2(k - 1)
  }

  /** Bit by bit, the lowest first. */
  function XorBits(a: nat, b: nat, k: nat): (x: nat)
    requires a < Pow2(k) && b < Pow2(k)
    ensures x < Pow2(k)
  {
    if k == 0 then 0 else 2 * XorBits(a / 2, b / 2, k - 1) + if a % 2 == b % 2 then 0 else 1
  }

  lemma XorHalves(a: nat, b: nat, k: nat)
    requires k > 0 && a < Pow2(k) && b < Pow2(k)
    ensures XorBits(a, b, k) / 2 == XorBits(a / 2, b / 2, k - 1)
    ensures XorBits(a, b, k) % 2 == (a % 2 + b % 2) % 2
  {
  }

  lemma {:induction false} XorBitsTwice(a: nat, b: nat, k: nat)
    requires a < Pow2(k) && b < Pow2(k)
    ensures XorBits(XorBits(a, b, k), b, k) == a
  {
    if k > 0 {
      XorBitsTwice(a / 2, b / 2, k - 1);
      XorHalves(a, b, k);
      XorHalves(XorBits(a, b, k), b, k);
      hide XorBits, Pow2;
    }
  }

  lemma EightBits()
    ensures Pow2(8) == 0x100
  {
    assert Pow2(2) == 4;
    assert Pow2(4) == 16;
    assert Pow2(6) == 64;
  }

  function XorByte(x: byte, y: byte): byte {
    EightBits();
    XorBits(x as nat, y as nat, 8) as byte
  }

  lemma XorByteTwice(x: byte, y: byte)
    ensures XorByte(XorByte(x, y), y) == x
  {
    EightBits();
    XorBitsTwice(x as nat, y as nat, 8);
  }

  function Bit(x: nat, j: nat): (d: nat)
    ensures d < 2
  {
    if j == 0 then x % 2 else Bit(x / 2, j - 1)
  }

  lemma {:induction false} XorBitAt(a: nat, b: nat, k: nat, j: nat)
    requires a < Pow2(k) && b < Pow2(k) && j < k
    ensures Bit(XorBits(a, b, k), j) == (Bit(a, j) + Bit(b, j)) % 2
  {
    XorHalves(a, b, k);
    if j > 0 {
      XorBitAt(a / 2, b / 2, k - 1, j - 1);
    }
    hide XorBits, Pow2;
  }

  function Xor(a: seq<byte>, b: seq<byte>): (x: seq<byte>)
    requires |a| == |b|
    ensures |x| == |a|
  {
    seq(|a|, i requires 0 <= i < |a| => XorByte(a[i], b[i]))
  }

  lemma XorTwice(a: seq<byte>, b: seq<byte>)
    requires |a| == |b|
    ensures Xor(Xor(a, b), b) == a
  {
    forall i | 0 <= i < |a| ensures Xor(Xor(a, b), b)[i] == a[i] {
      XorByteTwice(a[i], b[i]);
    }
  }

  /** Bit by bit the exclusive or: a bit of the result is set if it is set in exactly one of the two. */
  lemma XorIsBitwise(a: seq<byte>, b: seq<byte>, i: nat, j: nat)
    requires i < |a| == |b| && j < 8
    ensures Bit(Xor(a, b)[i] as nat, j) == (Bit(a[i] as nat, j) + Bit(b[i] as nat, j)) % 2
  {
    EightBits();
    XorBitAt(a[i] as nat, b[i] as nat, 8, j);
  }

  // ---- words ---------------------------------------------------------------------------------

  function FromLE(b: seq<byte>): (n: nat)
    requires |b| == 4
  {
    b[0] as nat + 0x100 * b[1] as nat + 0x1_0000 * b[2] as nat + 0x100_0000 * b[3] as nat
  }

  function FromBE(b: seq<byte>): (n: nat)
    requires |b| == 4
  {
    b[3] as nat + 0x100 * b[2] as nat + 0x1_0000 * b[1] as nat + 0x100_0000 * b[0] as nat
  }

  function LE(n: nat): (b: seq<byte>)
    requires n < 0x1_0000_0000
    ensures |b| == 4
  {
    [(n % 0x100) as byte, (n / 0x100 % 0x100) as byte, (n / 0x1_0000 % 0x100) as byte, (n / 0x100_0000) as byte]
  }

  lemma Digits(n: nat)
    requires n < 0x1_0000_0000
    ensures n == n % 0x100 + 0x100 * (n / 0x100 % 0x100) + 0x1_0000 * (n / 0x1_0000 % 0x100) + 0x100_0000 * (n / 0x100_0000)
  {
    var a, b := n / 0x100, n / 0x1_0000;
    assert n == n % 0x100 + 0x100 * a;
    assert b == a / 0x100 && a == a % 0x100 + 0x100 * b;
    assert n / 0x100_0000 == b / 0x100 && b == b % 0x100 + 0x100 * (b / 0x100);
  }

  /** Little endian: a small number fills the first byte. */
  lemma LERoundTrip(n: nat)
    requires n < 0x1_0000_0000
    ensures FromLE(LE(n)) == n
    ensures n < 0x100 ==> LE(n) == [n as byte, 0, 0, 0]
  {
    Digits(n);
  }

  /** The word written most significant byte first. */
  function BE(n: nat): (b: seq<byte>)
    requires n < 0x1_0000_0000
    ensures |b| == 4
  {
    [(n / 0x100_0000) as byte, (n / 0x1_0000 % 0x100) as byte, (n / 0x100 % 0x100) as byte, (n % 0x100) as byte]
  }

  /** Big endian: a small number fills the last byte. */
  lemma BERoundTrip(n: nat)
    requires n < 0x1_0000_0000
    ensures FromBE(BE(n)) == n
    ensures n < 0x100 ==> BE(n) == [0, 0, 0, n as byte]
  {
    Digits(n);
  }

  lemma LowDigit(x: nat, u: nat, y: nat, v: nat)
    requires x < 0x100 && y < 0x100 && x + 0x100 * u == y + 0x100 * v
    ensures x == y && u == v
  {
  }

  /** Two words are the same number exactly if they are the same bytes. */
  lemma FromBEInjective(a: seq<byte>, b: seq<byte>)
    requires |a| == |b| == 4
    ensures FromBE(a) == FromBE(b) <==> a == b
  {
    if FromBE(a) == FromBE(b) {
      var a1, b1 := a[1] as nat + 0x100 * a[0] as nat, b[1] as nat + 0x100 * b[0] as nat;
      var a2, b2 := a[2] as nat + 0x100 * a1, b[2] as nat + 0x100 * b1;
      assert FromBE(a) == a[3] as nat + 0x100 * a2 && FromBE(b) == b[3] as nat + 0x100 * b2;
      hide FromBE;
      LowDigit(a[3] as nat, a2, b[3] as nat, b2);
      LowDigit(a[2] as nat, a1, b[2] as nat, b1);
      LowDigit(a[1] as nat, a[0] as nat, b[1] as nat, b[0] as nat);
    }
  }
}
