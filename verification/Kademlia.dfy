/** Node ids and the XOR metric on them. */
module Kademlia {
  import opened Bytes

  const ID_LEN := 20

  /** Nodes a bucket holds. */
  const K_BUCKET_SIZE := 8

  type Id = s: Bytes | |s| == ID_LEN witness seq(ID_LEN, _ => 0)

  type Addr = nat

  function XorBit(a: nat, b: nat): nat { if a % 2 == b % 2 then 0 else 1 }

  /** Exclusive or, bit by bit from the lowest. */
  function XorNat(a: nat, b: nat): nat {
    if a == 0 && b == 0 then 0 else 2 * XorNat(a / 2, b / 2) + XorBit(a, b)
  }

  lemma {:induction false} XorByteIsByte(a: nat, b: nat, k: nat)
    requires a < Pow2(k) && b < Pow2(k)
    ensures XorNat(a, b) < Pow2(k)
  {
    if k > 0 && (a != 0 || b != 0) { XorByteIsByte(a / 2, b / 2, k - 1); }
  }

  function XorByte(a: Byte, b: Byte): Byte {
    assert Pow2(8) == 256 by { assert Pow2(4) == 16; }
    XorByteIsByte(a, b, 8);
    XorNat(a, b)
  }

  function XorBytes(a: Bytes, b: Bytes): (r: Bytes)
    requires |a| == |b|
    ensures |r| == |a|
  {
    seq(|a|, i requires 0 <= i < |a| => XorByte(a[i], b[i]))
  }

  // ---------- the metric on numbers ----------

  lemma {:induction false} XorSelf(a: nat)
    ensures XorNat(a, a) == 0
  {
    if a != 0 { XorSelf(a / 2); }
  }

  lemma {:induction false} XorSymmetric(a: nat, b: nat)
    ensures XorNat(a, b) == XorNat(b, a)
  {
    if a != 0 || b != 0 { XorSymmetric(a / 2, b / 2); }
  }

  /** Xor with the target undoes itself, so different ids lie at different distances. */
  lemma {:induction false} XorUndoes(a: nat, t: nat)
    ensures XorNat(XorNat(a, t), t) == a
  {
    if a != 0 || t != 0 {
      XorUndoes(a / 2, t / 2);
      HalfOf(XorNat(a / 2, t / 2), XorBit(a, t));
      XorHalve(XorNat(a, t), t);
    }
  }

  /** The distance by way of a third id is never shorter. */
  lemma {:induction false} XorTriangle(a: nat, b: nat, c: nat)
    ensures XorNat(a, c) <= XorNat(a, b) + XorNat(b, c)
    decreases a + b + c
  {
    if a + b + c > 0 {
      hide XorNat;
      XorTriangle(a / 2, b / 2, c / 2);
      XorHalve(a, b);
      XorHalve(b, c);
      XorHalve(a, c);
    }
  }

  function Shift(a: nat, k: nat): nat { if k == 0 then a else 2 * Shift(a, k - 1) }

  function Halved(x: nat, k: nat): nat { if k == 0 then x else Halved(x / 2, k - 1) }

  lemma {:induction false} XorShift(a: nat, x: nat, b: nat, y: nat, k: nat)
    requires Halved(x, k) == 0 && Halved(y, k) == 0
    ensures XorNat(Shift(a, k) + x, Shift(b, k) + y) == Shift(XorNat(a, b), k) + XorNat(x, y)
  {
    if k > 0 {
      hide XorNat;
      XorShift(a, x / 2, b, y / 2, k - 1);
      SplitHalf(Shift(a, k - 1), Shift(b, k - 1), Shift(XorNat(a, b), k - 1), x, y);
    }
  }

  lemma {:induction false} HalvedSmall(x: nat, k: nat)
    requires x < Pow2(k)
    ensures Halved(x, k) == 0
  {
    if k > 0 { HalvedSmall(x / 2, k - 1); }
  }

  lemma ShiftFour(a: nat, k: nat)
    ensures Shift(a, k + 4) == 16 * Shift(a, k)
  {
    assert Shift(a, k + 2) == 4 * Shift(a, k);
  }

  lemma ShiftByte(a: nat, k: nat)
    ensures Shift(a, k + 8) == 256 * Shift(a, k)
  {
    ShiftFour(a, k);
    ShiftFour(a, k + 4);
  }

  /** Xor of two numbers and a byte each, the bytes in the low places. */
  lemma XorSplit(a: nat, x: Byte, b: nat, y: Byte)
    ensures XorNat(256 * a + x, 256 * b + y) == 256 * XorNat(a, b) + XorNat(x, y)
  {
    hide XorNat;
    Pow2Eight();
    HalvedSmall(x, 8);
    HalvedSmall(y, 8);
    XorShift(a, x, b, y, 8);
    ShiftByte(a, 0);
    ShiftByte(b, 0);
    ShiftByte(XorNat(a, b), 0);
  }

  lemma SplitHalf(p: nat, q: nat, r: nat, x: nat, y: nat)
    requires XorNat(p + x / 2, q + y / 2) == r + XorNat(x / 2, y / 2)
    ensures XorNat(2 * p + x, 2 * q + y) == 2 * r + XorNat(x, y)
  {
    hide XorNat;
    HalfOf(p, x);
    HalfOf(q, y);
    XorHalve(2 * p + x, 2 * q + y);
    XorHalve(x, y);
  }

  lemma HalfOf(p: nat, x: nat)
    ensures (2 * p + x) / 2 == p + x / 2 && (2 * p + x) % 2 == x % 2
  {
  }

  lemma XorHalve(a: nat, b: nat)
    ensures XorNat(a, b) == 2 * XorNat(a / 2, b / 2) + XorBit(a, b)
  {
  }

  lemma XorLast(a: Bytes, b: Bytes)
    requires |a| == |b| > 0
    ensures var n := |a| - 1;
            XorBytes(a, b)[..n] == XorBytes(a[..n], b[..n]) && XorBytes(a, b)[n] == XorNat(a[n], b[n])
  {
  }

  /** Xor of ids byte by byte is xor of the numbers they spell. */
  lemma {:induction false} XorIsXorNat(a: Bytes, b: Bytes)
    requires |a| == |b|
    ensures BeValue(XorBytes(a, b)) == XorNat(BeValue(a), BeValue(b))
    decreases |a|
  {
    if a != [] {
      hide BeValue, XorNat, Pow2, XorBytes;
      var n := |a| - 1;
      XorIsXorNat(a[..n], b[..n]);
      BeLast(a);
      BeLast(b);
      BeLast(XorBytes(a, b));
      XorLast(a, b);
      XorSplit(BeValue(a[..n]), a[n], BeValue(b[..n]), b[n]);
    }
  }

  function Dist(id: Id, target: Id): nat { BeValue(XorBytes(id, target)) }

  lemma DistInjective(a: Id, b: Id, target: Id)
    requires Dist(a, target) == Dist(b, target)
    ensures a == b
  {
    XorIsXorNat(a, target);
    XorIsXorNat(b, target);
    XorUndoes(BeValue(a), BeValue(target));
    XorUndoes(BeValue(b), BeValue(target));
    BeUnique(a);
    BeUnique(b);
  }

  /** Distance is a metric: zero only to oneself, symmetric, and with the triangle inequality. */
  lemma DistIsMetric(a: Id, b: Id, c: Id)
    ensures Dist(a, b) == 0 <==> a == b
    ensures Dist(a, b) == Dist(b, a)
    ensures Dist(a, c) <= Dist(a, b) + Dist(b, c)
  {
    XorIsXorNat(a, b);
    XorIsXorNat(b, a);
    XorIsXorNat(b, c);
    XorIsXorNat(a, c);
    XorSymmetric(BeValue(a), BeValue(b));
    XorTriangle(BeValue(a), BeValue(b), BeValue(c));
    XorSelf(BeValue(b));
    XorIsXorNat(b, b);
    if Dist(a, b) == 0 { DistInjective(a, b, b); }
  }

  // ---------- comparing and measuring ids ----------

  method Xor(a: Id, b: Id) returns (r: Id)
    ensures r == XorBytes(a, b)
  {
    var out: Bytes := [];
    for i := 0 to 20
      invariant |out| == i && forall j | 0 <= j < i :: out[j] == XorByte(a[j], b[j])
    {
      out := out + [XorByte(a[i], b[i])];
    }
    r := out;
  }

  lemma {:induction false} LessAt(a: Bytes, b: Bytes, i: nat)
    requires |a| == |b| && i <= |a| && a[..i] == b[..i]
    ensures i < |a| && a[i] != b[i] ==> (BeValue(a) < BeValue(b) <==> a[i] < b[i])
  {
    LexConcat(a[..i], a[i..], b[..i], b[i..]);
    assert a == a[..i] + a[i..] && b == b[..i] + b[i..];
    LexIrreflexive(a[..i]);
    LexIsBeOrder(a, b);
  }

  /** Comparing byte by byte is comparing the 160-bit numbers. */
  method Less(a: Id, b: Id) returns (r: bool)
    ensures r <==> BeValue(a) < BeValue(b)
  {
    for i := 0 to 20
      invariant a[..i] == b[..i]
    {
      if a[i] != b[i] {
        LessAt(a, b, i);
        return a[i] < b[i];
      }
    }
    assert a == a[..20] && b == b[..20];
    r := false;
  }

  function BitLength(v: nat): nat { if v == 0 then 0 else 1 + BitLength(v / 2) }

  /** The bit length places a number between two powers of two. */
  lemma {:induction false} BitLengthIs(v: nat, k: nat)
    ensures BitLength(v) <= k <==> v < Pow2(k)
  {
    if v != 0 && k > 0 { BitLengthIs(v / 2, k - 1); }
  }

  lemma {:induction false} BitLengthScales(v: nat, k: nat, low: nat)
    requires v > 0 && Halved(low, k) == 0
    ensures BitLength(Shift(v, k) + low) == BitLength(v) + k && Shift(v, k) > 0
  {
    if k > 0 {
      hide BitLength;
      BitLengthScales(v, k - 1, low / 2);
      HalfOf(Shift(v, k - 1), low);
      BitLengthStep(Shift(v, k) + low);
    }
  }

  lemma BitLengthStep(v: nat)
    requires v > 0
    ensures BitLength(v) == 1 + BitLength(v / 2)
  {
  }

  lemma {:induction false} Pow256Bits(n: nat)
    ensures Pow256(n) == Pow2(8 * n)
  {
    if n > 0 {
      Pow256Bits(n - 1);
      Pow2Sixteen(8 * n - 8);
      Pow2Sixteen(8 * n - 4);
    }
  }

  lemma Pow2Sixteen(k: nat)
    ensures Pow2(k + 4) == 16 * Pow2(k)
  {
    assert Pow2(k + 2) == 4 * Pow2(k);
  }

  lemma {:induction false} BeSplit(s: Bytes, i: nat)
    requires i <= |s|
    ensures BeValue(s) == Shift(BeValue(s[..i]), 8 * (|s| - i)) + BeValue(s[i..])
    decreases |s|
  {
    if i == |s| {
      assert s[..i] == s;
    } else {
      hide BeValue, Shift;
      var n := |s| - 1;
      BeSplit(s[..n], i);
      assert s[..n][..i] == s[..i] && s[..n][i..] == s[i..n];
      assert s[i..][..n - i] == s[i..n] && s[i..][n - i] == s[n];
      BeLast(s);
      BeLast(s[i..]);
      ShiftByte(BeValue(s[..i]), 8 * (n - i));
    }
  }

  lemma BeLast(s: Bytes)
    requires s != []
    ensures BeValue(s) == BeValue(s[..|s| - 1]) * 256 + s[|s| - 1]
  {
  }

  lemma {:induction false} ZeroPrefix(s: Bytes)
    requires forall j | 0 <= j < |s| :: s[j] == 0
    ensures BeValue(s) == 0
  {
    if s != [] { ZeroPrefix(s[..|s| - 1]); }
  }

  /** The position of an id's highest set bit, counted from one; zero for the zero id. */
  method BitLen(a: Id) returns (r: nat)
    ensures r == BitLength(BeValue(a)) && r <= 160
  {
    for i := 0 to 20
      invariant forall j | 0 <= j < i :: a[j] == 0
    {
      if a[i] != 0 {
        var b, bit := a[i], 8;
        while b > 0
          invariant 0 <= b && bit == 8 - (BitLength(a[i]) - BitLength(b))
          decreases b
        {
          b := b / 2;
          bit := bit - 1;
        }
        FirstByte(a, i);
        return (20 - i) * 8 - bit;
      }
    }
    ZeroPrefix(a);
    r := 0;
  }

  lemma FirstByte(a: Id, i: nat)
    requires i < 20 && a[i] != 0 && forall j | 0 <= j < i :: a[j] == 0
    ensures BitLength(BeValue(a)) == BitLength(a[i]) + 8 * (19 - i) && BitLength(a[i]) <= 8
  {
    hide BitLength, Pow2, Pow256, BeValue, Shift, Halved;
    var t := a[i + 1..];
    BeSplit(a, i + 1);
    assert a[..i + 1][..i] == a[..i];
    ZeroPrefix(a[..i]);
    BeLast(a[..i + 1]);
    Pow256Bits(19 - i);
    assert BeValue(t) < Pow256(|t|);
    HalvedSmall(BeValue(t), 8 * (19 - i));
    BitLengthScales(a[i], 8 * (19 - i), BeValue(t));
    BitLengthIs(a[i], 8);
    Pow2Eight();
  }

  lemma Pow2Eight()
    ensures Pow2(8) == 256
  {
    assert Pow2(4) == 16;
  }
}
