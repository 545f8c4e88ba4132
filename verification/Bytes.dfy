/** Byte strings as the daemon's key-value store and wire formats use them: bytewise order and
    fixed-width big-endian numbers. */
module Bytes {

  type Byte = x: int | 0 <= x < 256

  type Bytes = seq<Byte>

  datatype Option<+T> = None | Some(value: T)

  const TWO_TO_63 := 0x8000_0000_0000_0000
  const TWO_TO_64 := 0x1_0000_0000_0000_0000

  /** What a signed 64-bit number can be. */
  predicate Int64(v: int) { -TWO_TO_63 <= v < TWO_TO_63 }

  function Pow2(k: nat): (r: nat)
    ensures r >= 1
  {
    if k == 0 then 1 else 2 * Pow2(k - 1)
  }

  // ---------- bytewise (lexicographic) order ----------

  /** The order of Badger keys and of Go string comparison. */
  predicate LexLess(a: Bytes, b: Bytes)
    decreases |a|
  {
    if b == [] then false
    else if a == [] then true
    else a[0] < b[0] || (a[0] == b[0] && LexLess(a[1..], b[1..]))
  }

  lemma {:induction false} LexIrreflexive(a: Bytes)
    ensures !LexLess(a, a)
    decreases |a|
  {
    if a != [] { LexIrreflexive(a[1..]); }
  }

  lemma {:induction false} LexTransitive(a: Bytes, b: Bytes, c: Bytes)
    requires LexLess(a, b) && LexLess(b, c)
    ensures LexLess(a, c)
    decreases |a|
  {
    if a != [] && a[0] == b[0] == c[0] {
      LexTransitive(a[1..], b[1..], c[1..]);
    }
  }

  lemma {:induction false} LexTotal(a: Bytes, b: Bytes)
    ensures a == b || LexLess(a, b) || LexLess(b, a)
    decreases |a|
  {
    if a != [] && b != [] && a[0] == b[0] {
      LexTotal(a[1..], b[1..]);
      assert a == [a[0]] + a[1..] && b == [b[0]] + b[1..];
    }
  }

  lemma LexAsymmetric(a: Bytes, b: Bytes)
    requires LexLess(a, b)
    ensures !LexLess(b, a) && a != b
  {
    LexIrreflexive(a);
    if LexLess(b, a) { LexTransitive(a, b, a); }
  }

  /** Two keys whose heads have the same length compare by head first, then by tail. */
  lemma {:induction false} LexConcat(a: Bytes, x: Bytes, b: Bytes, y: Bytes)
    requires |a| == |b|
    ensures LexLess(a + x, b + y) <==> LexLess(a, b) || (a == b && LexLess(x, y))
    decreases |a|
  {
    if a == [] {
      assert a + x == x && b + y == y;
    } else {
      LexConcat(a[1..], x, b[1..], y);
      assert (a + x)[1..] == a[1..] + x && (b + y)[1..] == b[1..] + y;
      assert a == b <==> a[0] == b[0] && a[1..] == b[1..] by {
        assert a == [a[0]] + a[1..] && b == [b[0]] + b[1..];
      }
    }
  }

  lemma LexSamePrefix(p: Bytes, x: Bytes, y: Bytes)
    ensures LexLess(p + x, p + y) <==> LexLess(x, y)
  {
    LexConcat(p, x, p, y);
    LexIrreflexive(p);
  }

  // ---------- big-endian numbers ----------

  function Pow256(n: nat): (r: nat)
    ensures r >= 1
  {
    if n == 0 then 1 else 256 * Pow256(n - 1)
  }

  /** The value of a byte string read most significant byte first. */
  function BeValue(s: Bytes): (r: nat)
    ensures r < Pow256(|s|)
  {
    if s == [] then 0 else BeValue(s[..|s| - 1]) * 256 + s[|s| - 1]
  }

  /** `v` in exactly `n` bytes, most significant first; higher bytes are cut off, as PutUint does. */
  function BigEndian(n: nat, v: nat): (s: Bytes)
    ensures |s| == n
  {
    if n == 0 then [] else BigEndian(n - 1, v / 256) + [v % 256]
  }

  lemma {:induction false} BeRoundTrip(n: nat, v: nat)
    requires v < Pow256(n)
    ensures BeValue(BigEndian(n, v)) == v
  {
    if n > 0 {
      BeRoundTrip(n - 1, v / 256);
      var s := BigEndian(n, v);
      assert s[..|s| - 1] == BigEndian(n - 1, v / 256);
    }
  }

  lemma {:induction false} BeUnique(s: Bytes)
    ensures BigEndian(|s|, BeValue(s)) == s
  {
    if s != [] {
      var h := s[..|s| - 1];
      BeUnique(h);
      assert BeValue(s) / 256 == BeValue(h) && BeValue(s) % 256 == s[|s| - 1];
      assert s == h + [s[|s| - 1]];
    }
  }

  lemma BeInjective(n: nat, u: nat, v: nat)
    requires u < Pow256(n) && v < Pow256(n)
    requires BigEndian(n, u) == BigEndian(n, v)
    ensures u == v
  {
    BeRoundTrip(n, u);
    BeRoundTrip(n, v);
  }

  /** The bytewise order of equally long strings is the order of the numbers they spell. */
  lemma {:induction false} LexIsBeOrder(a: Bytes, b: Bytes)
    requires |a| == |b|
    ensures LexLess(a, b) <==> BeValue(a) < BeValue(b)
    decreases |a|
  {
    if a != [] {
      var n := |a| - 1;
      var ha, hb := a[..n], b[..n];
      LexIsBeOrder(ha, hb);
      LexConcat(ha, [a[n]], hb, [b[n]]);
      assert a == ha + [a[n]] && b == hb + [b[n]];
      assert LexLess([a[n]], [b[n]]) <==> a[n] < b[n] by {
        assert [a[n]][1..] == [] && [b[n]][1..] == [];
      }
      if ha != hb && BeValue(ha) == BeValue(hb) {
        BeUnique(ha);
        BeUnique(hb);
        assert false;
      }
    }
  }

  lemma BeOrder(n: nat, u: nat, v: nat)
    requires u < Pow256(n) && v < Pow256(n)
    ensures LexLess(BigEndian(n, u), BigEndian(n, v)) <==> u < v
  {
    LexIsBeOrder(BigEndian(n, u), BigEndian(n, v));
    BeRoundTrip(n, u);
    BeRoundTrip(n, v);
  }

  /** Go's conversion of a signed to an unsigned 64-bit number. */
  function U64(v: int): (r: nat)
    ensures r < TWO_TO_64
    ensures 0 <= v < TWO_TO_63 ==> r == v
    ensures -TWO_TO_63 <= v < 0 ==> r == v + TWO_TO_64
  {
    v % TWO_TO_64
  }

  lemma Pow256Eight(n: nat)
    requires n == 8
    ensures Pow256(n) == TWO_TO_64
  {
    assert Pow256(n - 6) == 65536;
    assert Pow256(n - 4) == 65536 * 65536 by { assert Pow256(n - 4) == 256 * (256 * Pow256(n - 6)); }
    assert Pow256(n - 2) == 256 * (256 * Pow256(n - 4));
    assert Pow256(n) == 256 * (256 * Pow256(n - 2));
  }

  /** Eight-byte timestamps: bytewise order is numeric order as long as no timestamp is negative. */
  lemma TimestampOrder(n: nat, t: int, u: int)
    requires n == 8 && 0 <= t < TWO_TO_63 && 0 <= u < TWO_TO_63
    ensures LexLess(BigEndian(n, U64(t)), BigEndian(n, U64(u))) <==> t < u
  {
    Pow256Eight(n);
    BeOrder(n, U64(t), U64(u));
  }

  lemma TimestampInjective(n: nat, t: int, u: int)
    requires n == 8
    requires -TWO_TO_63 <= t < TWO_TO_63 && -TWO_TO_63 <= u < TWO_TO_63
    requires BigEndian(n, U64(t)) == BigEndian(n, U64(u))
    ensures t == u
  {
    Pow256Eight(n);
    BeInjective(n, U64(t), U64(u));
  }
}
