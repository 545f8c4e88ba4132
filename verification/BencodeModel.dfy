/** Bencoding (BEP 3, "bencoding"): the printer, the parser of untyped values, and the skipper of raw values,
    as functions on byte strings. */
module BencodeModel {
  import opened Bytes

  datatype Value =
    | Int(n: int)
    | Str(s: Bytes)
    | List(vs: seq<Value>)
    | Dict(m: map<Bytes, Value>)

  const CH_E: Byte := 101
  const CH_I: Byte := 105
  const CH_L: Byte := 108
  const CH_D: Byte := 100
  const CH_COLON: Byte := 58
  const CH_MINUS: Byte := 45
  const CH_PLUS: Byte := 43
  const CH_0: Byte := 48

  predicate IsDigit(b: Byte) { 48 <= b <= 57 }

  const DEFAULT_MAX_STR_LEN: nat := 0x7FF_FFFF

  // ---------- decimal numbers ----------

  function Dec(n: nat): (s: Bytes)
    ensures |s| > 0
  {
    if n < 10 then [CH_0 + n] else Dec(n / 10) + [CH_0 + n % 10]
  }

  function IntText(n: int): Bytes { if n < 0 then [CH_MINUS] + Dec(-n) else Dec(n) }

  /** Reads digits onto `acc`. */
  function NatFrom(s: Bytes, acc: nat): Option<nat>
    decreases |s|
  {
    if s == [] then Some(acc)
    else if IsDigit(s[0]) then NatFrom(s[1..], acc * 10 + (s[0] - CH_0))
    else None
  }

  function NatOf(s: Bytes): Option<nat> { if s == [] then None else NatFrom(s, 0) }

  /** A decimal number with an optional sign, as big.Int.SetString reads it. */
  function IntOf(s: Bytes): Option<int> {
    if s == [] then None
    else if s[0] == CH_MINUS then Signed(NatOf(s[1..]), true)
    else if s[0] == CH_PLUS then Signed(NatOf(s[1..]), false)
    else Signed(NatOf(s), false)
  }

  function Signed(o: Option<nat>, neg: bool): Option<int> {
    match o
    case None => None
    case Some(n) => var v: int := n; Some(if neg then -v else v)
  }

  datatype Parsed64 = Ok(n: int) | OutOfRange | BadSyntax

  /** strconv.ParseUint gives up at the first digit that leaves 64 bits, before it looks at what follows. */
  function ScanUint(s: Bytes, acc: nat): Parsed64
    decreases |s|
  {
    if s == [] then Ok(acc)
    else if !IsDigit(s[0]) then BadSyntax
    else
      var n := acc * 10 + (s[0] - CH_0);
      if n >= TWO_TO_64 then OutOfRange else ScanUint(s[1..], n)
  }

  function ParseInt64(s: Bytes): Parsed64 {
    if s == [] then BadSyntax
    else
      var neg := s[0] == CH_MINUS;
      var digits := if neg || s[0] == CH_PLUS then s[1..] else s;
      if digits == [] then BadSyntax
      else
        match ScanUint(digits, 0)
        case BadSyntax => BadSyntax
        case OutOfRange => OutOfRange
        case Ok(u) =>
          if !neg && u >= TWO_TO_63 then OutOfRange
          else if neg && u > TWO_TO_63 then OutOfRange
          else Ok(if neg then -u else u)
  }

  /** An integer is read as 64 bits first and as a big number when it does not fit. */
  function DecodeInt(s: Bytes): Option<int> {
    match ParseInt64(s)
    case Ok(n) => Some(n)
    case OutOfRange => IntOf(s)
    case BadSyntax => None
  }

  /** No leading zero, no sign but a minus before a nonzero digit; single characters are left to the parser. */
  predicate CheckBufferedInt(b: Bytes) {
    |b| <= 1 ||
    (var d := if b[0] == CH_MINUS then b[1..] else b; 49 <= d[0] <= 57)
  }

  lemma {:induction false} NatFromConcat(a: Bytes, b: Bytes, acc: nat)
    ensures NatFrom(a + b, acc) == match NatFrom(a, acc) case Some(n) => NatFrom(b, n) case None => None
    decreases |a|
  {
    if a == [] {
      assert a + b == b;
    } else {
      assert (a + b)[1..] == a[1..] + b;
      if IsDigit(a[0]) { NatFromConcat(a[1..], b, acc * 10 + (a[0] - CH_0)); }
    }
  }

  lemma NatFromDigit(b: Byte, acc: nat)
    ensures NatFrom([b], acc) == if IsDigit(b) then Some(acc * 10 + (b - CH_0)) else None
  {
    assert [b][1..] == [];
  }

  /** Printed numbers start with a nonzero digit unless they are one digit long, and read back. */
  lemma {:induction false} DecReadsBack(n: nat)
    ensures NatFrom(Dec(n), 0) == Some(n) && IsDigit(Dec(n)[0]) && (n > 0 ==> Dec(n)[0] != CH_0)
    ensures |Dec(n)| > 1 ==> n >= 10
  {
    if n < 10 {
      NatFromDigit(CH_0 + n, 0);
    } else {
      DecReadsBack(n / 10);
      NatFromConcat(Dec(n / 10), [CH_0 + n % 10], 0);
      NatFromDigit(CH_0 + n % 10, n / 10);
    }
  }

  /** Every spelling without a leading zero is the printed one. */
  lemma {:induction false} DecUnique(s: Bytes, n: nat)
    requires s != [] && NatFrom(s, 0) == Some(n) && (|s| > 1 ==> s[0] != CH_0)
    ensures s == Dec(n)
    decreases |s|
  {
    var front, last := s[..|s| - 1], s[|s| - 1];
    assert s == front + [last];
    NatFromConcat(front, [last], 0);
    if front == [] {
      NatFromDigit(last, 0);
    } else {
      var m := NatFrom(front, 0).value;
      NatFromDigit(last, m);
      DecUnique(front, m);
      DecReadsBack(m);
    }
  }

  lemma {:induction false} ScanUintIsNatFrom(s: Bytes, acc: nat)
    ensures ScanUint(s, acc).Ok? ==> NatFrom(s, acc) == Some(ScanUint(s, acc).n) && ScanUint(s, acc).n >= 0
    ensures ScanUint(s, acc).BadSyntax? ==> NatFrom(s, acc) == None
    decreases |s|
  {
    if s != [] && IsDigit(s[0]) && acc * 10 + (s[0] - CH_0) < TWO_TO_64 {
      ScanUintIsNatFrom(s[1..], acc * 10 + (s[0] - CH_0));
    }
  }

  /** The detour through 64 bits changes nothing. */
  lemma DecodeIntIsIntOf(s: Bytes)
    ensures DecodeInt(s) == IntOf(s)
  {
    if s != [] {
      var digits := if s[0] == CH_MINUS || s[0] == CH_PLUS then s[1..] else s;
      ScanUintIsNatFrom(digits, 0);
    }
  }

  lemma {:induction false} ScanUintRange(s: Bytes, acc: nat)
    requires acc < TWO_TO_64
    ensures ScanUint(s, acc).Ok? ==> ScanUint(s, acc).n < TWO_TO_64
    ensures ScanUint(s, acc).OutOfRange? && NatFrom(s, acc).Some? ==> NatFrom(s, acc).value >= TWO_TO_64
    decreases |s|
  {
    if s != [] && IsDigit(s[0]) {
      var n := acc * 10 + (s[0] - CH_0);
      if n < TWO_TO_64 { ScanUintRange(s[1..], n); } else { NatFromGrows(s[1..], n); }
    }
  }

  /** The 64-bit reading is the number where that fits into 64 bits, and out of range only where it does not. */
  lemma ParseInt64Is(s: Bytes)
    ensures ParseInt64(s).Ok? ==> IntOf(s) == Some(ParseInt64(s).n) && Int64(ParseInt64(s).n)
    ensures ParseInt64(s).OutOfRange? && IntOf(s).Some? ==> !Int64(IntOf(s).value)
    ensures ParseInt64(s).BadSyntax? ==> IntOf(s) == None
  {
    if s != [] {
      var digits := if s[0] == CH_MINUS || s[0] == CH_PLUS then s[1..] else s;
      ScanUintIsNatFrom(digits, 0);
      ScanUintRange(digits, 0);
    }
  }

  /** Exactly the printed integers pass the check and parse. */
  lemma IntTextIff(b: Bytes, n: int)
    ensures CheckBufferedInt(b) && DecodeInt(b) == Some(n) <==> b == IntText(n)
  {
    DecodeIntIsIntOf(b);
    if b == IntText(n) {
      var a := if n < 0 then -n else n;
      DecReadsBack(a);
      if n < 0 { assert b[1..] == Dec(a); }
    }
    if CheckBufferedInt(b) && IntOf(b) == Some(n) {
      if b[0] == CH_MINUS {
        assert b[1..] != [];
        DecUnique(b[1..], -n);
        assert b == [CH_MINUS] + b[1..];
      } else if b[0] != CH_PLUS {
        DecUnique(b, n);
      }
    }
  }

  /** The digits of a string length; 63 bits are allowed. */
  function DecodeLen(b: Bytes): Option<nat> {
    match ParseInt64(b)
    case Ok(n) => if n >= 0 then Some(n) else None
    case _ => None
  }

  lemma {:induction false} ScanSmall(s: Bytes, acc: nat, n: nat)
    requires NatFrom(s, acc) == Some(n) && n < TWO_TO_64
    ensures ScanUint(s, acc) == Ok(n)
    decreases |s|
  {
    if s != [] {
      NatFromGrows(s[1..], acc * 10 + (s[0] - CH_0));
      ScanSmall(s[1..], acc * 10 + (s[0] - CH_0), n);
    }
  }

  lemma {:induction false} NatFromGrows(s: Bytes, acc: nat)
    ensures NatFrom(s, acc).Some? ==> NatFrom(s, acc).value >= acc
    decreases |s|
  {
    if s != [] && IsDigit(s[0]) { NatFromGrows(s[1..], acc * 10 + (s[0] - CH_0)); }
  }

  /** A string's length prefix starts with a digit; the check and the parser then accept exactly the printed
      numbers below 2^63. */
  lemma LengthIff(b: Bytes, n: nat)
    requires b != [] && IsDigit(b[0])
    ensures CheckBufferedInt(b) && DecodeLen(b) == Some(n) <==> b == Dec(n) && n < TWO_TO_63
  {
    ScanUintIsNatFrom(b, 0);
    if b == Dec(n) && n < TWO_TO_63 {
      DecReadsBack(n);
      ScanSmall(b, 0, n);
    }
    if CheckBufferedInt(b) && DecodeLen(b) == Some(n) {
      DecUnique(b, n);
    }
  }

  // ---------- the order of dictionary keys ----------

  predicate StrictlySorted(ks: seq<Bytes>) { forall i, j | 0 <= i < j < |ks| :: LexLess(ks[i], ks[j]) }

  lemma LeastKey(s: set<Bytes>) returns (k: Bytes)
    requires s != {}
    ensures k in s && forall o | o in s :: o == k || LexLess(k, o)
    decreases |s|
  {
    var x :| x in s;
    var rest := s - {x};
    if rest == {} {
      k := x;
      forall o | o in s ensures o == k { assert o !in rest; }
    } else {
      var y := LeastKey(rest);
      LexTotal(x, y);
      if LexLess(x, y) {
        k := x;
        forall o | o in s ensures o == k || LexLess(k, o) {
          if o != x { assert o in rest; if o != y { LexTransitive(x, y, o); } }
        }
      } else {
        k := y;
        forall o | o in s ensures o == k || LexLess(k, o) { if o != x { assert o in rest; } }
      }
    }
  }

  lemma LeastUnique(s: set<Bytes>, a: Bytes, b: Bytes)
    requires a in s && forall o | o in s :: o == a || LexLess(a, o)
    requires b in s && forall o | o in s :: o == b || LexLess(b, o)
    ensures a == b
  {
    if a != b { LexAsymmetric(a, b); }
  }

  function MinKey(s: set<Bytes>): (k: Bytes)
    requires s != {}
    ensures k in s && forall o | o in s :: o == k || LexLess(k, o)
  {
    assert exists k :: k in s && forall o | o in s :: o == k || LexLess(k, o) by {
      var k := LeastKey(s);
    }
    assert forall a, b | a in s && b in s && (forall o | o in s :: o == a || LexLess(a, o)) &&
                         (forall o | o in s :: o == b || LexLess(b, o)) :: a == b by {
      forall a, b | a in s && b in s && (forall o | o in s :: o == a || LexLess(a, o)) &&
                    (forall o | o in s :: o == b || LexLess(b, o)) ensures a == b { LeastUnique(s, a, b); }
    }
    var k :| k in s && forall o | o in s :: o == k || LexLess(k, o);
    k
  }

  /** The keys in the order Go sorts them. */
  function SortedKeys(s: set<Bytes>): (ks: seq<Bytes>)
    ensures forall k :: k in ks <==> k in s
    ensures StrictlySorted(ks)
    decreases |s|
  {
    if s == {} then []
    else
      var k := MinKey(s);
      assert s == {k} + (s - {k});
      var rest := SortedKeys(s - {k});
      ConsSorted(k, rest);
      [k] + rest
  }

  lemma ConsSorted(k: Bytes, ks: seq<Bytes>)
    requires StrictlySorted(ks) && forall o | o in ks :: LexLess(k, o)
    ensures StrictlySorted([k] + ks)
  {
    hide LexLess;
    var all := [k] + ks;
    forall i, j | 0 <= i < j < |all| ensures LexLess(all[i], all[j]) {
      assert all[j] == ks[j - 1] && ks[j - 1] in ks;
    }
  }

  /** A set has one strictly sorted enumeration. */
  lemma {:induction false} SortedUnique(ks: seq<Bytes>, s: set<Bytes>)
    requires StrictlySorted(ks) && forall k :: k in ks <==> k in s
    ensures ks == SortedKeys(s)
    decreases |ks|
  {
    if ks == [] {
      assert forall k | k in s :: k in ks;
      assert s == {};
    } else {
      assert ks[0] in s;
      forall o | o in s ensures o == ks[0] || LexLess(ks[0], o) {
        var i :| 0 <= i < |ks| && ks[i] == o;
      }
      LeastUnique(s, ks[0], MinKey(s));
      var rest := ks[1..];
      forall k ensures k in rest <==> k in s - {ks[0]} {
        if k in rest {
          var i :| 0 <= i < |rest| && rest[i] == k;
          assert ks[i + 1] == k;
          LexIrreflexive(k);
        }
        if k in s - {ks[0]} { var i :| 0 <= i < |ks| && ks[i] == k; assert rest[i - 1] == k; }
      }
      SortedUnique(rest, s - {ks[0]});
    }
  }

  // ---------- printing ----------

  function EncodeStr(s: Bytes): Bytes { Dec(|s|) + ([CH_COLON] + s) }

  function Encode(v: Value): (r: Bytes)
    ensures r != []
    decreases v, 2
  {
    match v
    case Int(n) => [CH_I] + (IntText(n) + [CH_E])
    case Str(s) => EncodeStr(s)
    case List(vs) => [CH_L] + (EncodeAll(vs) + [CH_E])
    case Dict(m) => [CH_D] + (EncodeEntries(v, SortedKeys(m.Keys)) + [CH_E])
  }

  function EncodeAll(vs: seq<Value>): Bytes
    decreases vs, 1
  {
    if vs == [] then [] else Encode(vs[0]) + EncodeAll(vs[1..])
  }

  function EncodeEntries(v: Value, keys: seq<Bytes>): Bytes
    requires v.Dict? && forall k | k in keys :: k in v.m
    decreases v, 1, |keys|
  {
    if keys == [] then []
    else EncodeStr(keys[0]) + (Encode(v.m[keys[0]]) + EncodeEntries(v, keys[1..]))
  }

  // ---------- parsing ----------

  /** A value and what follows it; the end mark of the enclosing list or dictionary; or a syntax error. */
  datatype Parse = Val(v: Value, rest: Bytes) | End(rest: Bytes) | Err

  /** The bytes before the first `sep` and those after it. */
  function SplitAt(s: Bytes, sep: Byte): (r: Option<(Bytes, Bytes)>)
    ensures r.Some? ==> s == r.value.0 + ([sep] + r.value.1) && sep !in r.value.0
    ensures r.None? <==> sep !in s
    decreases |s|
  {
    if s == [] then None
    else if s[0] == sep then Some(([], s[1..]))
    else
      match SplitAt(s[1..], sep)
      case None => None
      case Some((pre, rest)) => Some(([s[0]] + pre, rest))
  }

  function ParseIntBody(s: Bytes): (r: Parse)
    ensures r.Val? ==> |r.rest| < |s|
    ensures !r.End?
  {
    match SplitAt(s, CH_E)
    case None => Err
    case Some((pre, rest)) =>
      if !CheckBufferedInt(pre) then Err
      else match DecodeInt(pre) case None => Err case Some(n) => Val(Int(n), rest)
  }

  function ParseStrBody(s: Bytes, max: nat): (r: Parse)
    ensures r.Val? ==> |r.rest| < |s|
    ensures !r.End?
  {
    match SplitAt(s, CH_COLON)
    case None => Err
    case Some((pre, rest)) =>
      if !CheckBufferedInt(pre) then Err
      else
        match DecodeLen(pre)
        case None => Err
        case Some(n) => if n > max || n > |rest| then Err else Val(Str(rest[..n]), rest[n..])
  }

  function ParseValue(s: Bytes, max: nat): (r: Parse)
    ensures !r.Err? ==> |r.rest| < |s|
    decreases |s|, 0
  {
    if s == [] then Err
    else if s[0] == CH_E then End(s[1..])
    else if s[0] == CH_D then ParseDictTail(s[1..], max, map[], None)
    else if s[0] == CH_L then ParseListTail(s[1..], max, [])
    else if s[0] == CH_I then ParseIntBody(s[1..])
    else if IsDigit(s[0]) then ParseStrBody(s, max)
    else Err
  }

  function ParseListTail(s: Bytes, max: nat, acc: seq<Value>): (r: Parse)
    ensures !r.Err? ==> |r.rest| <= |s| && r.Val? && r.v.List?
    decreases |s|, 1
  {
    match ParseValue(s, max)
    case Err => Err
    case End(rest) => Val(List(acc), rest)
    case Val(v, rest) => ParseListTail(rest, max, acc + [v])
  }

  function ParseDictTail(s: Bytes, max: nat, acc: map<Bytes, Value>, last: Option<Bytes>): (r: Parse)
    ensures !r.Err? ==> |r.rest| <= |s| && r.Val? && r.v.Dict?
    decreases |s|, 1
  {
    match ParseValue(s, max)
    case Err => Err
    case End(rest) => Val(Dict(acc), rest)
    case Val(key, rest) =>
      if !key.Str? || (last.Some? && !LexLess(last.value, key.s)) then Err
      else
        match ParseValue(rest, max)
        case Err => Err
        case End(_) => Err
        case Val(v, rest') => ParseDictTail(rest', max, acc[key.s := v], Some(key.s))
  }

  /** Decoding a whole byte string: one value and nothing after it. */
  function Decode(s: Bytes, max: nat): Option<Value> {
    match ParseValue(s, max)
    case Val(v, rest) => if rest == [] then Some(v) else None
    case _ => None
  }

  /** Every string in the value, keys included, is within the length limit. */
  predicate Fits(v: Value, max: nat) {
    match v
    case Int(_) => true
    case Str(s) => |s| <= max
    case List(vs) => forall i | 0 <= i < |vs| :: Fits(vs[i], max)
    case Dict(m) => forall k | k in m :: |k| <= max && Fits(m[k], max)
  }

  // ---------- parsing what was printed ----------

  lemma {:induction false} SplitAtFirst(a: Bytes, sep: Byte, b: Bytes)
    requires sep !in a
    ensures SplitAt(a + ([sep] + b), sep) == Some((a, b))
    decreases |a|
  {
    var s := a + ([sep] + b);
    if a == [] {
      assert s == [sep] + b && s[1..] == b;
    } else {
      assert a[0] in a;
      assert s[1..] == a[1..] + ([sep] + b);
      SplitAtFirst(a[1..], sep, b);
      assert [a[0]] + a[1..] == a;
    }
  }

  lemma {:induction false} DecOnlyDigits(n: nat)
    ensures forall i | 0 <= i < |Dec(n)| :: IsDigit(Dec(n)[i])
  {
    if n >= 10 { DecOnlyDigits(n / 10); }
  }

  lemma ParsePrintedInt(n: int, t: Bytes, max: nat)
    ensures ParseValue(Encode(Int(n)) + t, max) == Val(Int(n), t)
  {
    hide CheckBufferedInt, DecodeInt, DecodeLen, Dec, SplitAt;
    var text := IntText(n);
    DecOnlyDigits(if n < 0 then -n else n);
    var s := Encode(Int(n)) + t;
    assert s[1..] == text + ([CH_E] + t);
    SplitAtFirst(text, CH_E, t);
    IntTextIff(text, n);
  }

  lemma ParsePrintedStr(x: Bytes, t: Bytes, max: nat)
    requires |x| <= max < TWO_TO_63
    ensures EncodeStr(x) + t != [] && IsDigit((EncodeStr(x) + t)[0])
    ensures ParseValue(EncodeStr(x) + t, max) == Val(Str(x), t)
  {
    hide CheckBufferedInt, DecodeInt, DecodeLen, IntText, Dec, SplitAt, LexLess, SortedKeys;
    var pre := Dec(|x|);
    DecOnlyDigits(|x|);
    var s := EncodeStr(x) + t;
    assert s == pre + ([CH_COLON] + (x + t));
    SplitAtFirst(pre, CH_COLON, x + t);
    LengthIff(pre, |x|);
    assert s[0] == pre[0];
    assert (x + t)[..|x|] == x && (x + t)[|x|..] == t;
  }

  /** Entries read in key order, put into a dictionary one by one. */
  function PutAll(acc: map<Bytes, Value>, v: Value, keys: seq<Bytes>): map<Bytes, Value>
    requires v.Dict? && forall k | k in keys :: k in v.m
    decreases |keys|
  {
    if keys == [] then acc else PutAll(acc[keys[0] := v.m[keys[0]]], v, keys[1..])
  }

  lemma {:induction false} PutAllIs(acc: map<Bytes, Value>, v: Value, keys: seq<Bytes>)
    requires v.Dict? && forall k | k in keys :: k in v.m
    ensures var r := PutAll(acc, v, keys);
            forall k :: (k in r <==> k in acc || k in keys) &&
                        (k in r ==> r[k] == if k in keys then v.m[k] else acc[k])
    decreases |keys|
  {
    if keys != [] {
      PutAllIs(acc[keys[0] := v.m[keys[0]]], v, keys[1..]);
    }
  }

  // How a printed list or dictionary looks from its front, with the text `t` behind it.

  lemma ListForm(vs: seq<Value>, t: Bytes)
    ensures Encode(List(vs)) + t == [CH_L] + (EncodeAll(vs) + ([CH_E] + t))
  {
    Regroup(CH_L, EncodeAll(vs), t);
  }

  lemma DictForm(v: Value, t: Bytes)
    requires v.Dict?
    ensures Encode(v) + t == [CH_D] + (EncodeEntries(v, SortedKeys(v.m.Keys)) + ([CH_E] + t))
  {
    hide SortedKeys;
    Regroup(CH_D, EncodeEntries(v, SortedKeys(v.m.Keys)), t);
  }

  lemma AllForm(vs: seq<Value>, tail: Bytes)
    ensures vs == [] ==> EncodeAll(vs) + tail == tail
    ensures vs != [] ==> EncodeAll(vs) + tail == Encode(vs[0]) + (EncodeAll(vs[1..]) + tail)
  {
    hide Encode;
    if vs == [] { assert [] + tail == tail; }
  }

  lemma EntriesForm(v: Value, keys: seq<Bytes>, tail: Bytes)
    requires v.Dict? && forall k | k in keys :: k in v.m
    ensures keys == [] ==> EncodeEntries(v, keys) + tail == tail
    ensures keys != [] ==> EncodeEntries(v, keys) + tail ==
                           EncodeStr(keys[0]) + (Encode(v.m[keys[0]]) + (EncodeEntries(v, keys[1..]) + tail))
  {
    hide Encode, EncodeStr;
    if keys == [] {
      assert [] + tail == tail;
    } else {
      var x, y, z := EncodeStr(keys[0]), Encode(v.m[keys[0]]), EncodeEntries(v, keys[1..]);
      assert (x + (y + z)) + tail == x + (y + (z + tail));
    }
  }

  lemma ParseOpen(x: Bytes, max: nat)
    ensures ParseValue([CH_L] + x, max) == ParseListTail(x, max, [])
    ensures ParseValue([CH_D] + x, max) == ParseDictTail(x, max, map[], None)
    ensures ParseValue([CH_E] + x, max) == End(x)
  {
    assert ([CH_L] + x)[1..] == x && ([CH_D] + x)[1..] == x && ([CH_E] + x)[1..] == x;
  }

  lemma DictTailPut(s: Bytes, max: nat, acc: map<Bytes, Value>, last: Option<Bytes>, k: Bytes, rest: Bytes, v: Value,
                    rest': Bytes)
    requires ParseValue(s, max) == Val(Str(k), rest) && ParseValue(rest, max) == Val(v, rest')
    requires last.Some? ==> LexLess(last.value, k)
    ensures ParseDictTail(s, max, acc, last) == ParseDictTail(rest', max, acc[k := v], Some(k))
  {
    hide ParseValue, LexLess;
  }

  lemma ParseClosedList(vs: seq<Value>, t: Bytes, max: nat)
    requires ParseListTail(EncodeAll(vs) + ([CH_E] + t), max, []) == Val(List([] + vs), t)
    ensures ParseValue(Encode(List(vs)) + t, max) == Val(List(vs), t)
  {
    hide Encode, EncodeAll, ParseValue, ParseListTail, ParseDictTail;
    ListForm(vs, t);
    ParseOpen(EncodeAll(vs) + ([CH_E] + t), max);
    assert [] + vs == vs;
  }

  lemma ParseClosedDict(v: Value, keys: seq<Bytes>, t: Bytes, max: nat)
    requires v.Dict? && keys == SortedKeys(v.m.Keys)
    requires ParseDictTail(EncodeEntries(v, keys) + ([CH_E] + t), max, map[], None) ==
             Val(Dict(PutAll(map[], v, keys)), t)
    ensures ParseValue(Encode(v) + t, max) == Val(v, t)
  {
    hide Encode, EncodeEntries, ParseValue, ParseListTail, ParseDictTail, SortedKeys, LexLess;
    DictForm(v, t);
    ParseOpen(EncodeEntries(v, keys) + ([CH_E] + t), max);
    PutAllIs(map[], v, keys);
    assert PutAll(map[], v, keys) == v.m;
  }

  /** Decoding what was encoded gives the value back and leaves what follows. */
  lemma {:induction false} ParsePrinted(v: Value, t: Bytes, max: nat)
    requires Fits(v, max) && max < TWO_TO_63
    ensures ParseValue(Encode(v) + t, max) == Val(v, t)
    decreases v, 2
  {
    hide Encode, EncodeAll, EncodeEntries, EncodeStr, ParseValue, ParseListTail, ParseDictTail, SortedKeys, LexLess;
    match v
    case Int(n) => ParsePrintedInt(n, t, max);
    case Str(x) =>
      StrForm(x);
      ParsePrintedStr(x, t, max);
    case List(vs) =>
      ParsePrintedList(vs, t, max, []);
      ParseClosedList(vs, t, max);
    case Dict(m) =>
      var keys := SortedKeys(m.Keys);
      ParsePrintedDict(v, keys, t, max, map[], None);
      ParseClosedDict(v, keys, t, max);
  }

  lemma StrForm(x: Bytes)
    ensures Encode(Str(x)) == EncodeStr(x)
  {
  }

  lemma {:induction false} ParsePrintedList(vs: seq<Value>, t: Bytes, max: nat, acc: seq<Value>)
    requires (forall i | 0 <= i < |vs| :: Fits(vs[i], max)) && max < TWO_TO_63
    ensures ParseListTail(EncodeAll(vs) + ([CH_E] + t), max, acc) == Val(List(acc + vs), t)
    decreases vs, 1
  {
    hide Encode, EncodeAll, ParseValue;
    AllForm(vs, [CH_E] + t);
    if vs == [] {
      ParseOpen(t, max);
      assert acc + vs == acc;
    } else {
      ParsePrinted(vs[0], EncodeAll(vs[1..]) + ([CH_E] + t), max);
      ParsePrintedList(vs[1..], t, max, acc + [vs[0]]);
      assert acc + [vs[0]] + vs[1..] == acc + vs;
    }
  }

  lemma {:induction false} ParsePrintedDict(v: Value, keys: seq<Bytes>, t: Bytes, max: nat,
                                            acc: map<Bytes, Value>, last: Option<Bytes>)
    requires v.Dict? && Fits(v, max) && max < TWO_TO_63
    requires StrictlySorted(keys) && forall k | k in keys :: k in v.m
    requires last.Some? && keys != [] ==> LexLess(last.value, keys[0])
    ensures ParseDictTail(EncodeEntries(v, keys) + ([CH_E] + t), max, acc, last) == Val(Dict(PutAll(acc, v, keys)), t)
    decreases v, 1, |keys|
  {
    hide Encode, EncodeEntries, EncodeStr, ParseValue, LexLess;
    EntriesForm(v, keys, [CH_E] + t);
    if keys == [] {
      ParseOpen(t, max);
    } else {
      var k := keys[0];
      var rest' := EncodeEntries(v, keys[1..]) + ([CH_E] + t);
      assert k in keys && |k| <= max && Fits(v.m[k], max);
      ParsePrintedStr(k, Encode(v.m[k]) + rest', max);
      ParsePrinted(v.m[k], rest', max);
      DictTailPut(EncodeEntries(v, keys) + ([CH_E] + t), max, acc, last, k, Encode(v.m[k]) + rest', v.m[k], rest');
      ParsePrintedDict(v, keys[1..], t, max, acc[k := v.m[k]], Some(k));
    }
  }

  // ---------- printing what was parsed ----------

  lemma ParsedInt(s: Bytes)
    requires ParseIntBody(s).Val?
    ensures ParseIntBody(s).v.Int? && [CH_I] + s == Encode(ParseIntBody(s).v) + ParseIntBody(s).rest
  {
    hide CheckBufferedInt, DecodeInt, DecodeLen, IntText, Dec, SplitAt, LexLess, SortedKeys;
    var (pre, rest) := SplitAt(s, CH_E).value;
    var n := DecodeInt(pre).value;
    IntTextIff(pre, n);
    assert [CH_I] + (pre + ([CH_E] + rest)) == [CH_I] + (pre + [CH_E]) + rest;
  }

  lemma ParsedStr(s: Bytes, max: nat)
    requires s != [] && IsDigit(s[0]) && ParseStrBody(s, max).Val?
    ensures var r := ParseStrBody(s, max); r.v.Str? && |r.v.s| <= max && s == Encode(r.v) + r.rest
  {
    hide CheckBufferedInt, DecodeInt, DecodeLen, IntText, Dec, SplitAt, LexLess, SortedKeys;
    var (pre, rest) := SplitAt(s, CH_COLON).value;
    var n := DecodeLen(pre).value;
    assert pre != [] && pre[0] == s[0];
    LengthIff(pre, n);
    assert rest == rest[..n] + rest[n..];
    assert pre + ([CH_COLON] + (rest[..n] + rest[n..])) == pre + ([CH_COLON] + rest[..n]) + rest[n..];
  }

  lemma Regroup(open: Byte, body: Bytes, rest: Bytes)
    ensures [open] + (body + ([CH_E] + rest)) == [open] + (body + [CH_E]) + rest
  {
  }

  /** Whatever the parser accepts is exactly what the printer prints for the value it answers. */
  lemma {:induction false} ParsedIsPrinted(s: Bytes, max: nat)
    requires ParseValue(s, max).Val?
    ensures var r := ParseValue(s, max); s == Encode(r.v) + r.rest && Fits(r.v, max)
    decreases |s|, 0
  {
    hide CheckBufferedInt, DecodeInt, DecodeLen, IntText, Dec, SplitAt, LexLess, SortedKeys;
    var r := ParseValue(s, max);
    assert s == [s[0]] + s[1..];
    if s[0] == CH_D {
      var keys := ParsedDict(s[1..], max, map[], None);
      SortedUnique(keys, r.v.m.Keys);
      Regroup(CH_D, EncodeEntries(r.v, keys), r.rest);
    } else if s[0] == CH_L {
      ParsedList(s[1..], max, []);
      assert r.v.vs[0..] == r.v.vs;
      Regroup(CH_L, EncodeAll(r.v.vs), r.rest);
    } else if s[0] == CH_I {
      ParsedInt(s[1..]);
    } else {
      ParsedStr(s, max);
    }
  }

  lemma {:induction false} ParsedList(s: Bytes, max: nat, acc: seq<Value>)
    requires ParseListTail(s, max, acc).Val?
    requires forall i | 0 <= i < |acc| :: Fits(acc[i], max)
    ensures var r := ParseListTail(s, max, acc);
      && r.v.List? && acc <= r.v.vs && Fits(r.v, max)
      && s == EncodeAll(r.v.vs[|acc|..]) + ([CH_E] + r.rest)
    decreases |s|, 1
  {
    hide ParseValue, ParseListTail, Encode, LexLess, SortedKeys;
    var r := ParseListTail(s, max, acc);
    ListTailStep(s, max, acc);
    match ParseValue(s, max)
    case End(rest) =>
      assert r.v.vs[|acc|..] == [];
      EndMark(s, max);
    case Val(v, rest) =>
      ParsedIsPrinted(s, max);
      ParsedList(rest, max, acc + [v]);
      var more := r.v.vs[|acc|..];
      assert more[0] == v && more[1..] == r.v.vs[|acc + [v]|..];
      assert s == Encode(v) + (EncodeAll(more[1..]) + ([CH_E] + r.rest));
      assert s == (Encode(v) + EncodeAll(more[1..])) + ([CH_E] + r.rest);
  }

  lemma ListTailStep(s: Bytes, max: nat, acc: seq<Value>)
    requires ParseListTail(s, max, acc).Val?
    ensures var p := ParseValue(s, max);
      && !p.Err?
      && (p.End? ==> ParseListTail(s, max, acc) == Val(List(acc), p.rest))
      && (p.Val? ==> ParseListTail(s, max, acc) == ParseListTail(p.rest, max, acc + [p.v]))
  {
    hide ParseValue;
  }

  lemma EndMark(s: Bytes, max: nat)
    requires ParseValue(s, max).End?
    ensures s == [CH_E] + ParseValue(s, max).rest
  {
  }

  /** The keys the rest of a dictionary adds, in the order they are read. */
  lemma {:induction false} ParsedDict(s: Bytes, max: nat, acc: map<Bytes, Value>, last: Option<Bytes>)
    returns (keys: seq<Bytes>)
    requires ParseDictTail(s, max, acc, last).Val? && Fits(Dict(acc), max)
    requires forall k | k in acc :: last.Some? && (k == last.value || LexLess(k, last.value))
    ensures var r := ParseDictTail(s, max, acc, last);
      && r.v.Dict? && Fits(r.v, max)
      && StrictlySorted(keys)
      && (forall k | k in keys :: last.Some? ==> LexLess(last.value, k))
      && (forall k :: k in r.v.m <==> k in acc || k in keys)
      && (forall k | k in acc :: r.v.m[k] == acc[k])
      && s == EncodeEntries(r.v, keys) + ([CH_E] + r.rest)
    decreases |s|, 1
  {
    hide ParseValue, ParseDictTail, Encode, EncodeEntries, EncodeStr, LexLess, SortedKeys, Fits, StrictlySorted;
    NoEntries();
    var r := ParseDictTail(s, max, acc, last);
    DictTailStep(s, max, acc, last);
    match ParseValue(s, max)
    case End(rest) =>
      EndMark(s, max);
      keys := [];
      EntriesForm(r.v, keys, [CH_E] + rest);
    case Val(key, rest) =>
      ParsedIsPrinted(s, max);
      ParsedIsPrinted(rest, max);
      FitsStr(key, max);
      var p := ParseValue(rest, max);
      GrowDict(acc, last, key.s, p.v, max);
      var keys' := ParsedDict(p.rest, max, acc[key.s := p.v], Some(key.s));
      keys := [key.s] + keys';
      ExtendDict(acc, last, key.s, keys');
      ConsEntries(s, r.v, key.s, rest, p.rest, keys', [CH_E] + r.rest);
  }

  lemma NoEntries()
    ensures StrictlySorted([])
  {
  }

  lemma FitsStr(v: Value, max: nat)
    requires v.Str? && Fits(v, max)
    ensures |v.s| <= max && Encode(v) == EncodeStr(v.s)
  {
  }

  lemma ConsEntries(s: Bytes, v: Value, key: Bytes, rest: Bytes, rest': Bytes, keys: seq<Bytes>, tail: Bytes)
    requires v.Dict? && key in v.m && forall k | k in keys :: k in v.m
    requires s == EncodeStr(key) + rest && rest == Encode(v.m[key]) + rest' && rest' == EncodeEntries(v, keys) + tail
    ensures (forall k | k in [key] + keys :: k in v.m) && s == EncodeEntries(v, [key] + keys) + tail
  {
    hide Encode, EncodeEntries, EncodeStr;
    assert ([key] + keys)[1..] == keys;
    EntriesForm(v, [key] + keys, tail);
  }

  lemma GrowDict(acc: map<Bytes, Value>, last: Option<Bytes>, key: Bytes, v: Value, max: nat)
    requires forall k | k in acc :: last.Some? && (k == last.value || LexLess(k, last.value))
    requires last.Some? ==> LexLess(last.value, key)
    requires Fits(Dict(acc), max) && |key| <= max && Fits(v, max)
    ensures Fits(Dict(acc[key := v]), max)
    ensures forall k | k in acc[key := v] :: k == key || LexLess(k, key)
  {
    hide LexLess;
    forall k | k in acc[key := v] ensures k == key || LexLess(k, key) {
      if k != key && k != last.value { LexTransitive(k, last.value, key); }
    }
  }

  lemma DictTailStep(s: Bytes, max: nat, acc: map<Bytes, Value>, last: Option<Bytes>)
    requires ParseDictTail(s, max, acc, last).Val?
    ensures var p := ParseValue(s, max);
      && !p.Err?
      && (p.End? ==> ParseDictTail(s, max, acc, last) == Val(Dict(acc), p.rest))
      && (p.Val? ==>
            p.v.Str? && (last.Some? ==> LexLess(last.value, p.v.s)) &&
            var q := ParseValue(p.rest, max);
            q.Val? && ParseDictTail(s, max, acc, last) == ParseDictTail(q.rest, max, acc[p.v.s := q.v], Some(p.v.s)))
  {
    hide ParseValue, LexLess;
  }

  lemma ExtendDict(acc: map<Bytes, Value>, last: Option<Bytes>, key: Bytes, keys: seq<Bytes>)
    requires forall k | k in acc :: last.Some? && (k == last.value || LexLess(k, last.value))
    requires last.Some? ==> LexLess(last.value, key)
    requires StrictlySorted(keys) && forall k | k in keys :: LexLess(key, k)
    ensures StrictlySorted([key] + keys) && key !in acc
    ensures forall k | k in [key] + keys :: last.Some? ==> LexLess(last.value, k)
  {
    if key in acc { LexAsymmetric(last.value, key); LexIrreflexive(key); }
    ConsSorted(key, keys);
    forall k | k in [key] + keys && last.Some? ensures LexLess(last.value, k) {
      if k != key { LexTransitive(last.value, key, k); }
    }
  }

  /** Bencoding is a bijection: a byte string decodes to a value exactly when it is that value's encoding and
      the value's strings are within the limit. */
  lemma DecodeIffEncoded(s: Bytes, v: Value, max: nat)
    requires max < TWO_TO_63
    ensures Decode(s, max) == Some(v) <==> Fits(v, max) && s == Encode(v)
  {
    if Fits(v, max) && s == Encode(v) {
      ParsePrinted(v, [], max);
      assert s + [] == s;
    }
    if Decode(s, max) == Some(v) {
      ParsedIsPrinted(s, max);
      assert Encode(v) + [] == Encode(v);
    }
  }

  /** No encoding is a prefix of another, so a value's end can be found without knowing what follows. */
  lemma EncodingsAreSelfDelimiting(u: Value, v: Value, t: Bytes, t': Bytes, max: nat)
    requires Fits(u, max) && Fits(v, max) && max < TWO_TO_63
    requires Encode(u) + t == Encode(v) + t'
    ensures u == v && t == t'
  {
    ParsePrinted(u, t, max);
    ParsePrinted(v, t', max);
  }

  // ---------- skipping a raw value ----------

  /** How many bytes one raw value takes; the end mark takes none. */
  datatype Skip = Took(n: nat) | AtEnd | Bad

  function SkipValue(s: Bytes): (r: Skip)
    ensures r.Took? ==> 1 <= r.n <= |s|
    decreases |s|, 0
  {
    if s == [] then Bad
    else if s[0] == CH_E then AtEnd
    else if s[0] == CH_D || s[0] == CH_L then
      match SkipItems(s[1..]) case None => Bad case Some(n) => Took(1 + n)
    else if s[0] == CH_I then
      match SplitAt(s[1..], CH_E) case None => Bad case Some((pre, _)) => Took(1 + |pre| + 1)
    else if IsDigit(s[0]) then
      match SplitAt(s, CH_COLON)
      case None => Bad
      case Some((pre, rest)) =>
        match DecodeLen(pre)
        case None => Bad
        case Some(n) => if n > |rest| then Bad else Took(|pre| + 1 + n)
    else Bad
  }

  /** The values up to the end mark, and the end mark. */
  function SkipItems(s: Bytes): (r: Option<nat>)
    ensures r.Some? ==> 1 <= r.value <= |s|
    decreases |s|, 1
  {
    match SkipValue(s)
    case Bad => None
    case AtEnd => Some(1)
    case Took(n) =>
      match SkipItems(s[n..]) case None => None case Some(k) => Some(n + k)
  }

  lemma SkipOpen(x: Bytes)
    ensures SkipItems(x).Some? ==>
      SkipValue([CH_L] + x) == Took(1 + SkipItems(x).value) && SkipValue([CH_D] + x) == Took(1 + SkipItems(x).value)
    ensures SkipItems([CH_E] + x) == Some(1)
  {
    assert ([CH_L] + x)[1..] == x && ([CH_D] + x)[1..] == x;
  }

  /** One more value in front of what is skipped. */
  lemma SkipOneMore(e: Bytes, x: Bytes)
    requires SkipValue(e + x) == Took(|e|) && SkipItems(x).Some?
    ensures SkipItems(e + x) == Some(|e| + SkipItems(x).value)
  {
    hide SkipValue;
    assert (e + x)[|e|..] == x;
  }

  /** Whatever follows, the skipper stops exactly at the end of a printed value. */
  lemma {:induction false} SkipPrinted(v: Value, t: Bytes, max: nat)
    requires Fits(v, max) && max < TWO_TO_63
    ensures SkipValue(Encode(v) + t) == Took(|Encode(v)|)
    decreases v, 2
  {
    match v
    case Int(n) => SkipPrintedInt(n, t);
    case Str(x) => StrForm(x); SkipPrintedStr(x, t, max);
    case List(vs) =>
      hide EncodeAll, SkipValue, SkipItems;
      ListForm(vs, t);
      SkipPrintedList(vs, t, max);
      SkipOpen(EncodeAll(vs) + ([CH_E] + t));
    case Dict(m) =>
      hide EncodeEntries, SkipValue, SkipItems, SortedKeys, LexLess;
      DictForm(v, t);
      SkipPrintedDict(v, SortedKeys(m.Keys), t, max);
      SkipOpen(EncodeEntries(v, SortedKeys(m.Keys)) + ([CH_E] + t));
  }

  lemma SkipPrintedInt(n: int, t: Bytes)
    ensures SkipValue(Encode(Int(n)) + t) == Took(|Encode(Int(n))|)
  {
    hide Dec, SplitAt;
    var text := IntText(n);
    DecOnlyDigits(if n < 0 then -n else n);
    assert (Encode(Int(n)) + t)[1..] == text + ([CH_E] + t);
    SplitAtFirst(text, CH_E, t);
  }

  lemma SkipPrintedStr(x: Bytes, t: Bytes, max: nat)
    requires |x| <= max < TWO_TO_63
    ensures SkipValue(EncodeStr(x) + t) == Took(|EncodeStr(x)|)
  {
    hide CheckBufferedInt, DecodeLen, Dec, SplitAt;
    var pre := Dec(|x|);
    DecOnlyDigits(|x|);
    var s := EncodeStr(x) + t;
    assert s == pre + ([CH_COLON] + (x + t)) && s[0] == pre[0];
    SplitAtFirst(pre, CH_COLON, x + t);
    LengthIff(pre, |x|);
  }

  lemma {:induction false} SkipPrintedList(vs: seq<Value>, t: Bytes, max: nat)
    requires (forall i | 0 <= i < |vs| :: Fits(vs[i], max)) && max < TWO_TO_63
    ensures SkipItems(EncodeAll(vs) + ([CH_E] + t)) == Some(|EncodeAll(vs)| + 1)
    decreases vs, 1
  {
    hide Encode, SkipValue, SkipItems;
    AllForm(vs, [CH_E] + t);
    if vs == [] {
      SkipOpen(t);
    } else {
      var rest := EncodeAll(vs[1..]) + ([CH_E] + t);
      SkipPrinted(vs[0], rest, max);
      SkipPrintedList(vs[1..], t, max);
      SkipOneMore(Encode(vs[0]), rest);
    }
  }

  lemma {:induction false} SkipPrintedDict(v: Value, keys: seq<Bytes>, t: Bytes, max: nat)
    requires v.Dict? && Fits(v, max) && max < TWO_TO_63 && forall k | k in keys :: k in v.m
    ensures SkipItems(EncodeEntries(v, keys) + ([CH_E] + t)) == Some(|EncodeEntries(v, keys)| + 1)
    decreases v, 1, |keys|
  {
    hide Encode, EncodeStr, SkipValue, SkipItems;
    EntriesForm(v, keys, [CH_E] + t);
    if keys == [] {
      SkipOpen(t);
    } else {
      var k := keys[0];
      var rest' := EncodeEntries(v, keys[1..]) + ([CH_E] + t);
      assert k in keys && |k| <= max && Fits(v.m[k], max);
      SkipPrintedStr(k, Encode(v.m[k]) + rest', max);
      SkipPrinted(v.m[k], rest', max);
      SkipPrintedDict(v, keys[1..], t, max);
      SkipOneMore(Encode(v.m[k]), rest');
      SkipOneMore(EncodeStr(k), Encode(v.m[k]) + rest');
    }
  }

  /** Skipper and parser agree: where the parser reads a value, the skipper takes exactly its bytes. */
  lemma SkipAgreesWithParse(s: Bytes, max: nat)
    requires ParseValue(s, max).Val? && max < TWO_TO_63
    ensures SkipValue(s) == Took(|s| - |ParseValue(s, max).rest|)
  {
    ParsedIsPrinted(s, max);
    var r := ParseValue(s, max);
    SkipPrinted(r.v, r.rest, max);
  }

  // ---------- when what is skipped also parses ----------

  predicate AllDigits(s: Bytes) { forall i | 0 <= i < |s| :: IsDigit(s[i]) }

  /** Digits without a leading zero, after a minus that is not in front of zero. */
  predicate CanonicalInt(b: Bytes) {
    b != [] &&
    var digits := if b[0] == CH_MINUS then b[1..] else b;
    && digits != [] && AllDigits(digits)
    && (|digits| > 1 || b[0] == CH_MINUS ==> digits[0] != CH_0)
  }

  /** A string of at most max bytes whose length prefix has no leading zero. */
  predicate CanonicalStr(s: Bytes, max: nat)
    requires SkipValue(s).Took? && IsDigit(s[0])
  {
    var pre := SplitAt(s, CH_COLON).value.0;
    (|pre| > 1 ==> pre[0] != CH_0) && |StrAt(s)| <= max
  }

  function StrAt(s: Bytes): Bytes
    requires SkipValue(s).Took? && IsDigit(s[0])
  {
    var (pre, rest) := SplitAt(s, CH_COLON).value;
    rest[..DecodeLen(pre).value]
  }

  /** In the raw value at the front every integer is canonical, every string is canonical and within the limit, and
      dictionaries hold strings with strictly rising values, each followed by a value. */
  predicate Canonical(s: Bytes, max: nat)
    requires SkipValue(s).Took?
    decreases |s|, 0
  {
    if s[0] == CH_I then CanonicalInt(SplitAt(s[1..], CH_E).value.0)
    else if s[0] == CH_L then CanonicalItems(s[1..], max)
    else if s[0] == CH_D then CanonicalPairs(s[1..], max, None)
    else CanonicalStr(s, max)
  }

  predicate CanonicalItems(s: Bytes, max: nat)
    requires SkipItems(s).Some?
    decreases |s|, 1
  {
    match SkipValue(s)
    case AtEnd => true
    case Took(n) => Canonical(s, max) && CanonicalItems(s[n..], max)
  }

  predicate CanonicalPairs(s: Bytes, max: nat, last: Option<Bytes>)
    requires SkipItems(s).Some?
    decreases |s|, 1
  {
    match SkipValue(s)
    case AtEnd => true
    case Took(n) =>
      var rest := s[n..];
      assert SkipItems(rest).Some?;
      && IsDigit(s[0]) && CanonicalStr(s, max) && (last.Some? ==> LexLess(last.value, StrAt(s)))
      && match SkipValue(rest)
         case AtEnd => false
         case Took(m) => Canonical(rest, max) && CanonicalPairs(rest[m..], max, Some(StrAt(s)))
  }

  lemma {:induction false} DigitsRead(s: Bytes, acc: nat)
    ensures NatFrom(s, acc).Some? <==> AllDigits(s)
    decreases |s|
  {
    if s != [] {
      assert forall i | 0 <= i < |s| :: s[i] == if i == 0 then s[0] else s[1..][i - 1];
      assert forall i | 0 <= i < |s[1..]| :: s[1..][i] == s[i + 1];
      if IsDigit(s[0]) { DigitsRead(s[1..], acc * 10 + (s[0] - CH_0)); }
    }
  }

  lemma CanonicalIntIff(b: Bytes)
    ensures CanonicalInt(b) <==> CheckBufferedInt(b) && DecodeInt(b).Some?
  {
    DecodeIntIsIntOf(b);
    if b != [] {
      hide NatFrom;
      var signed := b[0] == CH_MINUS || b[0] == CH_PLUS;
      assert AllDigits(b) ==> IsDigit(b[0]);
      DigitsRead(if signed then b[1..] else b, 0);
      assert IntOf(b).Some? <==> (var d := if signed then b[1..] else b; d != [] && AllDigits(d));
    }
  }

  /** What follows the value that was read. */
  lemma RestIs(s: Bytes, max: nat)
    requires ParseValue(s, max).Val? && max < TWO_TO_63
    ensures SkipValue(s).Took? && s[SkipValue(s).n..] == ParseValue(s, max).rest
  {
    hide ParseValue, SkipValue, Encode;
    SkipAgreesWithParse(s, max);
    ParsedIsPrinted(s, max);
  }

  lemma CanonicalStrIff(s: Bytes, max: nat)
    requires s != [] && IsDigit(s[0])
    ensures ParseStrBody(s, max).Val? <==> SkipValue(s).Took? && CanonicalStr(s, max)
    ensures ParseStrBody(s, max).Val? ==> ParseStrBody(s, max).v == Str(StrAt(s))
  {
    hide DecodeLen;
    if SplitAt(s, CH_COLON).Some? {
      var pre := SplitAt(s, CH_COLON).value.0;
      assert pre != [] && pre[0] == s[0];
    }
  }

  /** The parser reads a value exactly where the skipper takes one that is canonical throughout. */
  lemma {:induction false} ParseIffCanonical(s: Bytes, max: nat)
    requires max < TWO_TO_63
    ensures ParseValue(s, max).Val? <==> SkipValue(s).Took? && Canonical(s, max)
    ensures ParseValue(s, max).End? <==> SkipValue(s).AtEnd?
    decreases |s|, 0
  {
    if s != [] {
      if s[0] == CH_I {
        hide CheckBufferedInt, DecodeInt, SplitAt, CanonicalInt;
        if SplitAt(s[1..], CH_E).Some? { CanonicalIntIff(SplitAt(s[1..], CH_E).value.0); }
      } else if s[0] == CH_L {
        hide CanonicalItems, ParseListTail, SkipItems;
        ItemsIffCanonical(s[1..], max, []);
      } else if s[0] == CH_D {
        hide CanonicalPairs, ParseDictTail, SkipItems;
        PairsIffCanonical(s[1..], max, map[], None);
      } else if IsDigit(s[0]) {
        hide CanonicalStr, ParseStrBody;
        CanonicalStrIff(s, max);
      }
    }
  }

  lemma {:induction false} ItemsIffCanonical(s: Bytes, max: nat, acc: seq<Value>)
    requires max < TWO_TO_63
    ensures ParseListTail(s, max, acc).Val? <==> SkipItems(s).Some? && CanonicalItems(s, max)
    decreases |s|, 1
  {
    hide ParseValue, SkipValue, Canonical;
    ParseIffCanonical(s, max);
    match ParseValue(s, max)
    case Val(v, rest) =>
      RestIs(s, max);
      ItemsIffCanonical(rest, max, acc + [v]);
    case _ =>
  }

  /** A key is a string, and a string starts with a digit. */
  lemma StrStart(s: Bytes, max: nat)
    requires ParseValue(s, max).Val?
    ensures ParseValue(s, max).v.Str? <==> IsDigit(s[0])
    ensures IsDigit(s[0]) ==> ParseValue(s, max) == ParseStrBody(s, max)
  {
    if IsDigit(s[0]) { ParsedStr(s, max); } else if s[0] == CH_I { ParsedInt(s[1..]); }
  }

  lemma {:induction false} PairsIffCanonical(s: Bytes, max: nat, acc: map<Bytes, Value>, last: Option<Bytes>)
    requires max < TWO_TO_63
    ensures ParseDictTail(s, max, acc, last).Val? <==> SkipItems(s).Some? && CanonicalPairs(s, max, last)
    decreases |s|, 1
  {
    hide ParseValue, SkipValue, Canonical, CanonicalStr, LexLess, ParseStrBody, StrAt;
    ParseIffCanonical(s, max);
    if ParseValue(s, max).Val? {
      var p := ParseValue(s, max);
      RestIs(s, max);
      StrStart(s, max);
      ParseIffCanonical(p.rest, max);
      if IsDigit(s[0]) {
        CanonicalStrIff(s, max);
        if ParseValue(p.rest, max).Val? {
          var q := ParseValue(p.rest, max);
          RestIs(p.rest, max);
          PairsIffCanonical(q.rest, max, acc[p.v.s := q.v], Some(p.v.s));
        }
      }
    } else if SkipValue(s).Took? && IsDigit(s[0]) {
      DigitCanonical(s, max);
    }
  }

  lemma DigitCanonical(s: Bytes, max: nat)
    requires SkipValue(s).Took? && IsDigit(s[0])
    ensures Canonical(s, max) <==> CanonicalStr(s, max)
  {
    hide CanonicalStr;
  }

  /** Both ways it can go wrong: an integer that is no number, and a well-formed integer where a key must stand. */
  lemma SkipTakesMoreThanParse(max: nat)
    ensures var s := [CH_I, CH_MINUS, CH_MINUS, CH_E]; SkipValue(s) == Took(4) && ParseValue(s, max) == Err
    ensures var s := [CH_D, CH_I, CH_0 + 1, CH_E, CH_E]; SkipValue(s) == Took(5) && ParseValue(s, max) == Err
  {
    var s := [CH_I, CH_MINUS, CH_MINUS, CH_E];
    var body := [CH_MINUS, CH_MINUS];
    assert s[1..] == body + ([CH_E] + []);
    SplitAtFirst(body, CH_E, []);
    assert body[1..][0] == CH_MINUS;
    OddKey(max);
  }

  lemma OddKey(max: nat)
    ensures var s := [CH_D, CH_I, CH_0 + 1, CH_E, CH_E]; SkipValue(s) == Took(5) && ParseValue(s, max) == Err
  {
    hide SkipValue, SkipItems, ParseValue, ParseDictTail, LexLess;
    var key, close := [CH_I, CH_0 + 1, CH_E], [CH_E];
    assert Dec(1) == [CH_0 + 1];
    assert Encode(Int(1)) == key;
    SkipPrinted(Int(1), close, TWO_TO_63 - 1);
    SkipOpen([]);
    assert close + [] == close;
    SkipOneMore(key, close);
    SkipOpen(key + close);
    var s := [CH_D, CH_I, CH_0 + 1, CH_E, CH_E];
    assert s == [CH_D] + (key + close);
    ParsePrinted(Int(1), close, TWO_TO_63 - 1);
    ParseOpen(key + close, max);
    NoIntKey(1, close, max);
  }

  /** An integer where a key must stand. */
  lemma NoIntKey(n: int, t: Bytes, max: nat)
    ensures ParseDictTail(Encode(Int(n)) + t, max, map[], None) == Err
  {
    hide Encode, ParseValue;
    ParsePrintedInt(n, t, max);
  }
}
