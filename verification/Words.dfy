/** Machine words as sequences of bits, most significant bit first, and the octets that
    the client's strings are made of. */
module Words {

  type byte = n: int | 0 <= n < 256
  type Bytes = seq<byte>

  /** The characters of a text as bytes. */
  function Ascii(text: string): (bytes: Bytes)
    ensures |bytes| == |text| && forall i :: 0 <= i < |text| ==> bytes[i] == text[i] as int % 256
  {
    seq(|text|, i requires 0 <= i < |text| => text[i] as int % 256)
  }

  type Bits = seq<bool>

  function Zeros(n: nat): (z: Bits)
    ensures |z| == n && forall i :: 0 <= i < n ==> !z[i]
  {
    seq(n, _ => false)
  }

  /** Bitwise exclusive or, which is also the sum of two polynomials over GF(2). */
  function Add(a: Bits, b: Bits): (c: Bits)
    requires |a| == |b|
    ensures |c| == |a| && forall i :: 0 <= i < |a| ==> c[i] == (a[i] != b[i])
  {
    seq(|a|, i requires 0 <= i < |a| => a[i] != b[i])
  }

  /** The unsigned value of a word. */
  function ToNat(w: Bits): (n: nat)
    ensures n < Power2(|w|)
  {
    if w == [] then 0
    else 2 * ToNat(w[..|w| - 1]) + (if w[|w| - 1] then 1 else 0)
  }

  function Power2(n: nat): (p: nat)
    ensures p > 0
  {
    if n == 0 then 1 else 2 * Power2(n - 1)
  }

  lemma {:induction false} Power2Increases(m: nat, n: nat)
    requires m <= n
    ensures Power2(m) <= Power2(n)
    ensures Power2(7) == 128 && Power2(8) == 256
  {
    assert Power2(4) == 16 && Power2(7) == 128;
    if m < n {
      Power2Increases(m, n - 1);
    }
  }

  /** The low `width` bits of a number. */
  function NatBits(n: nat, width: nat): (w: Bits)
    ensures |w| == width
  {
    if width == 0 then [] else NatBits(n / 2, width - 1) + [n % 2 == 1]
  }

  lemma {:induction false} ToNatOfNatBits(n: nat, width: nat)
    requires n < Power2(width)
    ensures ToNat(NatBits(n, width)) == n
  {
    if width > 0 {
      ToNatOfNatBits(n / 2, width - 1);
    }
  }

  function Byte(b: byte): (w: Bits)
    ensures |w| == 8
  {
    NatBits(b, 8)
  }

  function Halved(n: nat, times: nat): nat {
    if times == 0 then n else Halved(n / 2, times - 1)
  }

  lemma {:induction false} NatBitAt(n: nat, width: nat, i: nat)
    requires i < width
    ensures NatBits(n, width)[i] == (Halved(n, width - 1 - i) % 2 == 1)
  {
    if i < width - 1 {
      NatBitAt(n / 2, width - 1, i);
    }
  }

  lemma HalvedQuotients(n: nat)
    ensures Halved(n, 0) == n && Halved(n, 1) == n / 2 && Halved(n, 2) == n / 4 && Halved(n, 3) == n / 8
    ensures Halved(n, 4) == n / 16 && Halved(n, 5) == n / 32 && Halved(n, 6) == n / 64 && Halved(n, 7) == n / 128
  {
    var h := n / 8;
    assert Halved(n, 3) == h;
    assert Halved(h, 3) == h / 8 == n / 64;
    assert Halved(h, 4) == h / 16;
    assert Halved(n, 7) == Halved(h, 4);
    assert Halved(n, 6) == Halved(h, 3);
    assert Halved(n, 5) == Halved(h, 2) == h / 4;
    assert Halved(n, 4) == Halved(h, 1) == h / 2;
  }

  /** The bits of a byte, the highest first. */
  lemma ByteBits(b: byte)
    ensures var w := Byte(b);
      && w[0] == (b / 128 % 2 == 1) && w[1] == (b / 64 % 2 == 1) && w[2] == (b / 32 % 2 == 1) && w[3] == (b / 16 % 2 == 1)
      && w[4] == (b / 8 % 2 == 1) && w[5] == (b / 4 % 2 == 1) && w[6] == (b / 2 % 2 == 1) && w[7] == (b % 2 == 1)
    ensures ToNat(Byte(b)) == b
  {
    Power2Increases(7, 8);
    ToNatOfNatBits(b, 8);
    HalvedQuotients(b);
    hide NatBits, ToNat, Halved;
    forall i | 0 <= i < 8 ensures Byte(b)[i] == (Halved(b, 7 - i) % 2 == 1) {
      NatBitAt(b, 8, i);
    }
  }

  lemma ToNatStep(w: Bits)
    requires w != []
    ensures ToNat(w) == 2 * ToNat(w[..|w| - 1]) + Digit(w[|w| - 1])
  {
  }

  lemma {:induction false} ToNatAppend(a: Bits, b: Bits)
    ensures ToNat(a + b) == ToNat(a) * Power2(|b|) + ToNat(b)
  {
    if b == [] {
      assert a + b == a;
      assert Power2(0) == 1;
    } else {
      assert Power2(|b|) == 2 * Power2(|b| - 1);
      hide ToNat, Power2;
      var init := b[..|b| - 1];
      ToNatAppend(a, init);
      ToNatStep(b);
      ToNatStep(a + b);
      assert (a + b)[..|a + b| - 1] == a + init;
      Doubled(ToNat(a), Power2(|init|));
    }
  }

  lemma Doubled(m: nat, p: nat)
    ensures m * (2 * p) == 2 * (m * p)
  {
  }

  function Digit(b: bool): nat {
    if b then 1 else 0
  }

  /** Four bits as a number, the highest first. */
  lemma ToNatOfFour(w: Bits)
    requires |w| == 4
    ensures ToNat(w) == 8 * Digit(w[0]) + 4 * Digit(w[1]) + 2 * Digit(w[2]) + Digit(w[3])
  {
    assert ToNat([]) == 0;
    hide ToNat;
    ToNatStep(w);
    ToNatStep(w[..3]);
    ToNatStep(w[..2]);
    ToNatStep(w[..1]);
    assert w[..3][..2] == w[..2] && w[..2][..1] == w[..1] && w[..1][..0] == [];
  }

  /** Sixteen bits as a number. */
  lemma ToNatOfSixteen(w: Bits)
    requires |w| == 16
    ensures ToNat(w) == 4096 * ToNat(w[..4]) + 256 * ToNat(w[4..8]) + 16 * ToNat(w[8..12]) + ToNat(w[12..])
  {
    var a, b, c, d := w[..4], w[4..8], w[8..12], w[12..];
    assert Power2(4) == 16;
    assert w == ((a + b) + c) + d;
    hide ToNat;
    ToNatAppend((a + b) + c, d);
    ToNatAppend(a + b, c);
    ToNatAppend(a, b);
  }

  lemma ByteIsInjective(a: byte, b: byte)
    requires Byte(a) == Byte(b)
    ensures a == b
  {
    Power2Increases(7, 8);
    ToNatOfNatBits(a, 8);
    ToNatOfNatBits(b, 8);
  }

  lemma {:induction false} AddAppend(a: Bits, b: Bits, c: Bits, d: Bits)
    requires |a| == |b| && |c| == |d|
    ensures Add(a + c, b + d) == Add(a, b) + Add(c, d)
  {
  }
}
