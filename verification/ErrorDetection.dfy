/** What the checksum notices: it is linear, its steps lose nothing, and changes within sixteen bits, or
    in one byte, never leave it as it was. */
module ErrorDetection {
  import opened Words
  import opened Crc16

  /** `c` is the bytewise exclusive or of `a` and `b`. */
  ghost predicate IsXor(a: Bytes, b: Bytes, c: Bytes) {
    |a| == |b| == |c| && forall i :: 0 <= i < |a| ==> Byte(c[i]) == Add(Byte(a[i]), Byte(b[i]))
  }

  lemma {:induction false} BitsOfXor(a: Bytes, b: Bytes, c: Bytes)
    requires IsXor(a, b, c)
    ensures BitsOf(c) == Add(BitsOf(a), BitsOf(b))
  {
    if a == [] {
    } else {
      var n := |a| - 1;
      assert IsXor(a[..n], b[..n], c[..n]);
      BitsOfXor(a[..n], b[..n], c[..n]);
      AddAppend(BitsOf(a[..n]), BitsOf(b[..n]), Byte(a[n]), Byte(b[n]));
    }
  }

  /** The checksum is linear over byte strings of one length. */
  lemma CrcIsXorLinear(a: Bytes, b: Bytes, c: Bytes)
    requires IsXor(a, b, c)
    ensures Crc(c) == Add(Crc(a), Crc(b))
  {
    BitsOfXor(a, b, c);
    AddAppend(BitsOf(a), BitsOf(b), ZERO, ZERO);
    assert Add(ZERO, ZERO) == ZERO;
    DivideIsLinear(ZERO, ZERO, BitsOf(a) + ZERO, BitsOf(b) + ZERO);
  }

  /** Absorbing the same byte never merges two different states. */
  lemma TableStepIsInjective(w: Word, v: Word, c: byte)
    requires TableStep(w, c) == TableStep(v, c)
    ensures w == v
  {
    TableStepReduces(w, c);
    TableStepReduces(v, c);
    AddCancels(Divide(w, Zeros(8)), Divide(v, Zeros(8)), Lookup(Byte(c)));
    DivideIsInjective(w, v, Zeros(8));
  }

  lemma AddCancels(a: Bits, b: Bits, c: Bits)
    requires |a| == |b| == |c| && Add(a, c) == Add(b, c)
    ensures a == b
  {
    forall i | 0 <= i < |a|
      ensures a[i] == b[i]
    {
      assert Add(a, c)[i] == Add(b, c)[i];
    }
  }

  /** Divisions that share their last coefficients and end alike were alike before them. */
  lemma CommonTail(p: Bits, q: Bits, t: Bits)
    requires Divide(ZERO, p + t) == Divide(ZERO, q + t)
    ensures Divide(ZERO, p) == Divide(ZERO, q)
  {
    DivideConcat(ZERO, p, t);
    DivideConcat(ZERO, q, t);
    DivideIsInjective(Divide(ZERO, p), Divide(ZERO, q), t);
  }

  /** Remainders of dividends that agree up to their last sixteen coefficients differ by just
      the difference of those. */
  lemma LastSixteen(p: Bits, a: Bits, b: Bits)
    requires |a| == |b| <= 16
    ensures Add(Divide(ZERO, p + a), Divide(ZERO, p + b)) == Zeros(16 - |a|) + Add(a, b)
  {
    hide Divide;
    AddAppend(p, p, a, b);
    assert Add(p, p) == Zeros(|p|);
    assert Add(ZERO, ZERO) == ZERO;
    DivideIsLinear(ZERO, ZERO, p + a, p + b);
    DivideConcat(ZERO, Zeros(|p|), Add(a, b));
    DivideZeros(|p|);
    ShortDividend(Add(a, b));
  }

  lemma DifferentEndings(p: Bits, a: Bits, b: Bits)
    requires |a| == |b| <= 16 && Divide(ZERO, p + a) == Divide(ZERO, p + b)
    ensures a == b
  {
    hide Divide;
    LastSixteen(p, a, b);
    var sum := Add(Divide(ZERO, p + a), Divide(ZERO, p + b));
    forall i | 0 <= i < |a|
      ensures a[i] == b[i]
    {
      assert !sum[16 - |a| + i];
      assert Add(a, b)[i] == sum[16 - |a| + i];
    }
  }

  /** Any change confined to sixteen consecutive bits of a key changes its checksum. */
  lemma BurstIsDetected(x: Bytes, y: Bytes, i: nat, n: nat)
    requires |x| == |y| && n <= 16 && i + n <= 8 * |x|
    requires BitsOf(x) != BitsOf(y)
    requires BitsOf(x)[..i] == BitsOf(y)[..i] && BitsOf(x)[i + n..] == BitsOf(y)[i + n..]
    ensures Crc(x) != Crc(y)
  {
    hide Divide, BitsOf;
    var u, v := BitsOf(x), BitsOf(y);
    var p, a, b, t := u[..i], u[i..i + n], v[i..i + n], u[i + n..] + ZERO;
    assert u + ZERO == p + a + t && v + ZERO == p + b + t;
    assert u == p + a + u[i + n..] && v == p + b + u[i + n..];
    if Crc(x) == Crc(y) {
      CommonTail(p + a, p + b, t);
      DifferentEndings(p, a, b);
    }
  }

  lemma {:induction false} BitsOfByteAt(s: Bytes, k: nat)
    requires k < |s|
    ensures BitsOf(s)[8 * k..8 * k + 8] == Byte(s[k])
    ensures BitsOf(s)[..8 * k] == BitsOf(s[..k])
  {
    var n := |s| - 1;
    var head := BitsOf(s[..n]);
    assert BitsOf(s) == head + Byte(s[n]);
    if k < n {
      BitsOfByteAt(s[..n], k);
      assert s[..n][..k] == s[..k];
    }
    hide BitsOf, Byte;
    if k < n {
      assert BitsOf(s)[8 * k..8 * k + 8] == head[8 * k..8 * k + 8];
      assert BitsOf(s)[..8 * k] == head[..8 * k];
    } else {
      assert BitsOf(s)[8 * k..8 * k + 8] == Byte(s[n]);
      assert BitsOf(s)[..8 * k] == head;
    }
  }

  /** Two strings with equal bytes after position k have equal bits after bit 8k. */
  lemma {:induction false} BitsOfTail(x: Bytes, y: Bytes, k: nat)
    requires |x| == |y| && k <= |x| && x[k..] == y[k..]
    ensures BitsOf(x)[8 * k..] == BitsOf(y)[8 * k..]
  {
    var n := |x| - 1;
    if k <= n {
      assert x[n] == x[k..][n - k] && y[n] == y[k..][n - k];
      assert x[..n][k..] == x[k..][..n - k] && y[..n][k..] == y[k..][..n - k];
      BitsOfTail(x[..n], y[..n], k);
    }
  }

  /** Keys of one length that differ in exactly one byte never share a checksum. */
  lemma OneByteChangeIsDetected(x: Bytes, y: Bytes, k: nat)
    requires |x| == |y| && k < |x|
    requires x[k] != y[k] && x[..k] == y[..k] && x[k + 1..] == y[k + 1..]
    ensures Crc(x) != Crc(y)
  {
    BitsOfByteAt(x, k);
    BitsOfByteAt(y, k);
    BitsOfTail(x, y, k + 1);
    if BitsOf(x) == BitsOf(y) {
      ByteIsInjective(x[k], y[k]);
    }
    BurstIsDetected(x, y, 8 * k, 8);
  }

  /** Two trailing bytes bring the checksum to 0 exactly when their bits are the checksum of
      what precedes them, high byte first. */
  lemma ResidueIsZero(s: Bytes, high: byte, low: byte)
    ensures Crc(s + [high, low]) == ZERO <==> Byte(high) + Byte(low) == Crc(s)
  {
    hide Divide;
    var tail := Byte(high) + Byte(low);
    BitsOfTwo(s, high, low);
    RemainderWithTail(BitsOf(s), tail);
    var r := Divide(ZERO, BitsOf(s) + tail);
    DivideConcat(ZERO, BitsOf(s) + tail, ZERO);
    DivideZeros(16);
    if Divide(r, ZERO) == ZERO {
      DivideIsInjective(r, ZERO, ZERO);
      SumIsZero(Crc(s), tail);
    }
    if tail == Crc(s) {
      assert r == ZERO;
    }
  }

  /** Replacing the sixteen zeros after a dividend adds the new coefficients to its remainder. */
  lemma RemainderWithTail(m: Bits, tail: Word)
    ensures Divide(ZERO, m + tail) == Add(Divide(ZERO, m + ZERO), tail)
  {
    hide Divide;
    assert m + tail == Add(m + ZERO, Zeros(|m|) + tail);
    assert Add(ZERO, ZERO) == ZERO;
    DivideIsLinear(ZERO, ZERO, m + ZERO, Zeros(|m|) + tail);
    DivideConcat(ZERO, Zeros(|m|), tail);
    DivideZeros(|m|);
    ShortDividend(tail);
    assert Zeros(0) + tail == tail;
  }

  lemma SumIsZero(a: Word, b: Word)
    requires Add(a, b) == ZERO
    ensures a == b
  {
    forall i | 0 <= i < 16
      ensures a[i] == b[i]
    {
      assert !Add(a, b)[i];
    }
  }

  lemma BitsOfTwo(s: Bytes, high: byte, low: byte)
    ensures BitsOf(s + [high, low]) == BitsOf(s) + (Byte(high) + Byte(low))
  {
    var t := s + [high, low];
    assert t[..|t| - 1] == s + [high];
    assert (s + [high])[..|s|] == s;
  }
}
