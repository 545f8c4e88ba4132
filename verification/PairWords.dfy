/** Entropy as words: eleven bits a word, most significant bit first. */
module PairWords {
  import opened Bytes

  const LIST_SIZE := 2048

  datatype Error = NotPositive | TooManyBits | WordCount(got: nat, want: nat) | InvalidWord(word: string) | IndexPanic

  datatype Result<T> = Ok(value: T) | Err(error: Error)

  // ---------- bits of bytes and of numbers ----------

  /** Bit k of a byte, counted from the lowest. */
  function ByteBit(b: bv8, k: nat): nat
    requires k < 8
  {
    if (b >> k) & 1 == 1 then 1 else 0
  }

  function SetByteBit(b: bv8, k: nat, bit: nat): bv8
    requires k < 8
  {
    (b & !((1 as bv8) << k)) | ((if bit == 1 then 1 as bv8 else 0) << k)
  }

  function Mask(k: nat): bv8
    requires k < 8
  {
    if k == 0 then 1 else if k == 1 then 2 else if k == 2 then 4 else if k == 3 then 8
    else if k == 4 then 16 else if k == 5 then 32 else if k == 6 then 64 else 128
  }

  lemma ShiftIsMask(b: bv8, k: nat)
    requires k < 8
    ensures (1 as bv8) << k == Mask(k) && (0 as bv8) << k == 0
    ensures ((b >> k) & 1 == 1) <==> b & Mask(k) != 0
  {
    if k == 0 {
    } else if k == 1 {
    } else if k == 2 {
    } else if k == 3 {
    } else if k == 4 {
    } else if k == 5 {
    } else if k == 6 {
    } else {
    }
  }

  lemma MasksApart(j: nat, k: nat)
    requires j < 8 && k < 8
    ensures Mask(j) & Mask(k) == if j == k then Mask(j) else 0
    ensures Mask(j) != 0
  {
  }

  lemma MaskedBits(b: bv8, m: bv8, n: bv8)
    ensures m & n == 0 ==> ((b & !m) | m) & n == b & n && (b & !m) & n == b & n
    ensures ((b & !m) | m) & m == m && (b & !m) & m == 0
  {
  }

  lemma GetByMask(b: bv8, k: nat)
    requires k < 8
    ensures ByteBit(b, k) == if b & Mask(k) != 0 then 1 else 0
  {
    hide Mask;
    ShiftIsMask(b, k);
  }

  lemma SetByMask(b: bv8, k: nat, bit: nat)
    requires k < 8
    ensures SetByteBit(b, k, bit) == if bit == 1 then (b & !Mask(k)) | Mask(k) else b & !Mask(k)
  {
    hide Mask;
    ShiftIsMask(b, k);
    OrNothing(b & !Mask(k));
  }

  lemma OrNothing(b: bv8)
    ensures b | 0 == b
  {
  }

  lemma SetThenGet(b: bv8, k: nat, bit: nat, j: nat)
    requires k < 8 && j < 8 && bit < 2
    ensures ByteBit(SetByteBit(b, k, bit), j) == if j == k then bit else ByteBit(b, j)
  {
    hide Mask, ByteBit, SetByteBit;
    SetByMask(b, k, bit);
    GetByMask(b, j);
    GetByMask(SetByteBit(b, k, bit), j);
    MasksApart(k, j);
    MaskedBits(b, Mask(k), Mask(j));
  }

  lemma BitsMakeByte(a: bv8, b: bv8)
    requires forall k | 0 <= k < 8 :: ByteBit(a, k) == ByteBit(b, k)
    ensures a == b
  {
    assert ByteBit(a, 0) == ByteBit(b, 0) && ByteBit(a, 1) == ByteBit(b, 1) && ByteBit(a, 2) == ByteBit(b, 2);
    assert ByteBit(a, 3) == ByteBit(b, 3) && ByteBit(a, 4) == ByteBit(b, 4) && ByteBit(a, 5) == ByteBit(b, 5);
    assert ByteBit(a, 6) == ByteBit(b, 6) && ByteBit(a, 7) == ByteBit(b, 7);
  }

  /** Bit p of a byte string, counted from the highest bit of the first byte. */
  function Bit(s: seq<bv8>, p: nat): (r: nat)
    requires p < 8 * |s|
    ensures r < 2
  {
    ByteBit(s[p / 8], 7 - p % 8)
  }

  function NumBit(v: nat, k: nat): nat { if k == 0 then v % 2 else NumBit(v / 2, k - 1) }

  function BitsValue(s: seq<bv8>, off: nat, n: nat): nat
    requires off + n <= 8 * |s|
  {
    if n == 0 then 0 else 2 * BitsValue(s, off, n - 1) + Bit(s, off + n - 1)
  }

  lemma {:induction false} BitsValueBound(s: seq<bv8>, off: nat, n: nat)
    requires off + n <= 8 * |s|
    ensures BitsValue(s, off, n) < Pow2(n)
  {
    if n > 0 { BitsValueBound(s, off, n - 1); }
  }

  lemma TwiceAndBit(v: nat, bit: nat, k: nat)
    requires bit < 2
    ensures NumBit(2 * v + bit, k) == if k == 0 then bit else NumBit(v, k - 1)
  {
    assert (2 * v + bit) / 2 == v && (2 * v + bit) % 2 == bit;
  }

  lemma {:induction false} BitsValueBit(s: seq<bv8>, off: nat, n: nat, i: nat)
    requires off + n <= 8 * |s| && i < n
    ensures NumBit(BitsValue(s, off, n), n - 1 - i) == Bit(s, off + i)
  {
    hide Bit, NumBit;
    TwiceAndBit(BitsValue(s, off, n - 1), Bit(s, off + n - 1), n - 1 - i);
    if i < n - 1 { BitsValueBit(s, off, n - 1, i); }
  }

  /** The n bits from off on are those of the number, highest first. */
  predicate Spells(s: seq<bv8>, off: nat, n: nat, v: nat)
    requires off + n <= 8 * |s|
  {
    forall p | off <= p < off + n :: Bit(s, p) == NumBit(v, n - 1 - (p - off))
  }

  /** The bits of a number determine it. */
  lemma {:induction false} BitsOfNumber(s: seq<bv8>, off: nat, n: nat, v: nat)
    requires off + n <= 8 * |s| && v < Pow2(n) && Spells(s, off, n, v)
    ensures BitsValue(s, off, n) == v
  {
    if n > 0 {
      hide Bit;
      forall p | off <= p < off + n - 1 ensures Bit(s, p) == NumBit(v / 2, n - 2 - (p - off)) {
        assert Bit(s, p) == NumBit(v, n - 1 - (p - off));
      }
      BitsOfNumber(s, off, n - 1, v / 2);
      assert Bit(s, off + (n - 1)) == NumBit(v, 0) == v % 2;
    }
  }

  lemma BitsMakeBytes(a: seq<bv8>, b: seq<bv8>)
    requires |a| == |b| && forall p | 0 <= p < 8 * |a| :: Bit(a, p) == Bit(b, p)
    ensures a == b
  {
    forall i | 0 <= i < |a| ensures a[i] == b[i] {
      forall k | 0 <= k < 8 ensures ByteBit(a[i], k) == ByteBit(b[i], k) {
        var p := 8 * i + (7 - k);
        assert p / 8 == i && p % 8 == 7 - k;
        assert Bit(a, p) == Bit(b, p);
      }
      BitsMakeByte(a[i], b[i]);
    }
  }

  // ---------- the word list ----------

  /** 2048 different words, all as lower-casing leaves them. */
  ghost predicate ListOk(list: seq<string>, lower: string -> string) {
    && |list| == LIST_SIZE
    && (forall i, j | 0 <= i < j < |list| :: list[i] != list[j])
    && (forall i | 0 <= i < |list| :: lower(list[i]) == list[i])
  }

  ghost predicate IndexOk(list: seq<string>, index: map<string, nat>) {
    && (forall w | w in index :: index[w] < |list| && list[index[w]] == w)
    && (forall i | 0 <= i < |list| :: list[i] in index)
  }

  /** The words for the first bits, eleven at a time. */
  ghost predicate Encodes(list: seq<string>, e: seq<bv8>, bits: nat, words: seq<string>) {
    && |list| == LIST_SIZE && |words| == (bits + 10) / 11 && 11 * |words| <= 8 * |e|
    && forall i | 0 <= i < |words| :: WordAt(list, e, i, words[i])
  }

  predicate WordAt(list: seq<string>, e: seq<bv8>, i: nat, w: string)
    requires 11 * i + 11 <= 8 * |e| && |list| == LIST_SIZE
  {
    BitsValue(e, 11 * i, 11) < LIST_SIZE && w == list[BitsValue(e, 11 * i, 11)]
  }

  /** Bit p of what the words spell; zero past the last word. */
  function WordBit(index: map<string, nat>, lower: string -> string, words: seq<string>, p: nat): nat
    requires p < 11 * |words| ==> lower(words[p / 11]) in index
  {
    if p < 11 * |words| then NumBit(index[lower(words[p / 11])], 10 - p % 11) else 0
  }

  predicate AllListed(index: map<string, nat>, lower: string -> string, words: seq<string>) {
    forall i | 0 <= i < |words| :: lower(words[i]) in index
  }

  ghost predicate Decodes(index: map<string, nat>, lower: string -> string, words: seq<string>, bits: nat,
                          out: seq<bv8>)
  {
    && |words| == (bits + 10) / 11 && |out| == (bits + 7) / 8 && AllListed(index, lower, words)
    && forall p | 0 <= p < 8 * |out| :: Bit(out, p) == WordBit(index, lower, words, p)
  }

  // ---------- round trips ----------

  lemma ElevenBits()
    ensures Pow2(11) == LIST_SIZE
  {
    assert Pow2(4) == 16;
    assert Pow2(8) == 256;
  }

  lemma IndexOfWord(list: seq<string>, lower: string -> string, index: map<string, nat>, i: nat)
    requires ListOk(list, lower) && IndexOk(list, index) && i < |list|
    ensures lower(list[i]) in index && index[lower(list[i])] == i
  {
  }

  /** What encoded words decode to is the first bits of the entropy, zero-padded to whole bytes. */
  lemma DecodeOfEncode(list: seq<string>, lower: string -> string, index: map<string, nat>, e: seq<bv8>, bits: nat,
                       words: seq<string>, out: seq<bv8>)
    requires ListOk(list, lower) && IndexOk(list, index) && bits % 11 == 0
    requires Encodes(list, e, bits, words) && Decodes(index, lower, words, bits, out)
    ensures forall p | 0 <= p < 8 * |out| :: Bit(out, p) == if p < bits then Bit(e, p) else 0
  {
    hide BitsValue, NumBit, Bit;
    assert 11 * |words| == bits;
    forall p | 0 <= p < 8 * |out| ensures Bit(out, p) == if p < bits then Bit(e, p) else 0 {
      assert Bit(out, p) == WordBit(index, lower, words, p);
      if p < bits {
        var i, k := p / 11, p % 11;
        assert WordAt(list, e, i, words[i]);
        IndexOfWord(list, lower, index, BitsValue(e, 11 * i, 11));
        BitsValueBit(e, 11 * i, 11, k);
        assert 11 * i + k == p;
      }
    }
  }

  lemma SpelledWord(index: map<string, nat>, lower: string -> string, words: seq<string>, out: seq<bv8>, i: nat)
    requires i < |words| && 11 * |words| <= 8 * |out| && AllListed(index, lower, words)
    requires forall p | 0 <= p < 8 * |out| :: Bit(out, p) == WordBit(index, lower, words, p)
    ensures Spells(out, 11 * i, 11, index[lower(words[i])])
  {
    hide Bit, NumBit;
    var v := index[lower(words[i])];
    forall p | 11 * i <= p < 11 * i + 11 ensures Bit(out, p) == NumBit(v, 11 - 1 - (p - 11 * i)) {
      assert p / 11 == i && p % 11 == p - 11 * i;
      assert Bit(out, p) == WordBit(index, lower, words, p);
    }
  }

  lemma EncodeOfDecode(list: seq<string>, lower: string -> string, index: map<string, nat>, words: seq<string>,
                       bits: nat, out: seq<bv8>, again: seq<string>)
    requires ListOk(list, lower) && IndexOk(list, index) && bits % 11 == 0
    requires Decodes(index, lower, words, bits, out) && Encodes(list, out, bits, again)
    ensures again == seq(|words|, i requires 0 <= i < |words| => lower(words[i]))
  {
    hide BitsValue, NumBit, Bit, Pow2, Spells;
    ElevenBits();
    forall i | 0 <= i < |words| ensures again[i] == lower(words[i]) {
      assert lower(words[i]) in index;
      var v := index[lower(words[i])];
      SpelledWord(index, lower, words, out, i);
      BitsOfNumber(out, 11 * i, 11, v);
      assert WordAt(list, out, i, again[i]);
    }
  }

  // ---------- the codec ----------

  method ReadBits(b: seq<bv8>, off: nat, n: nat) returns (v: nat)
    requires off + n <= 8 * |b|
    ensures v == BitsValue(b, off, n) && v < Pow2(n)
  {
    v := 0;
    for i := 0 to n
      invariant v == BitsValue(b, off, i)
    {
      var bitPos := off + i;
      var byteIdx := bitPos / 8;
      var bitIdx := 7 - bitPos % 8;
      var bit := if (b[byteIdx] >> bitIdx) & 1 == 1 then 1 else 0;
      v := v * 2 + bit;
    }
    BitsValueBound(b, off, n);
  }

  method WriteBits(b: array<bv8>, off: nat, n: nat, v: nat)
    requires off + n <= 8 * b.Length
    modifies b
    ensures forall p | 0 <= p < 8 * b.Length ::
              Bit(b[..], p) == if off <= p < off + n then NumBit(v, n - 1 - (p - off)) else Bit(old(b[..]), p)
  {
    hide Bit, NumBit;
    for i := 0 to n
      invariant forall p | 0 <= p < 8 * b.Length ::
                  Bit(b[..], p) == if off <= p < off + i then NumBit(v, n - 1 - (p - off)) else Bit(old(b[..]), p)
    {
      ghost var was := b[..];
      var bitPos := off + i;
      var byteIdx := bitPos / 8;
      var bitIdx := 7 - bitPos % 8;
      var bit := ShiftedBit(v, n - 1 - i);
      b[byteIdx] := SetByteBit(b[byteIdx], bitIdx, bit);
      assert b[..] == was[byteIdx := SetByteBit(was[byteIdx], bitIdx, bit)];
      SetBit(was, bitPos, bit);
    }
  }

  /** The bit at distance k from the lowest, by shifting. */
  function ShiftedBit(v: nat, k: nat): (bit: nat)
    ensures bit == NumBit(v, k) && bit < 2
  {
    if k == 0 then v % 2 else ShiftedBit(v / 2, k - 1)
  }

  lemma SetBit(s: seq<bv8>, p: nat, bit: nat)
    requires p < 8 * |s| && bit < 2
    ensures var s' := s[p / 8 := SetByteBit(s[p / 8], 7 - p % 8, bit)];
            forall q | 0 <= q < 8 * |s| :: Bit(s', q) == if q == p then bit else Bit(s, q)
  {
    hide ByteBit, SetByteBit;
    var s' := s[p / 8 := SetByteBit(s[p / 8], 7 - p % 8, bit)];
    forall q | 0 <= q < 8 * |s| ensures Bit(s', q) == if q == p then bit else Bit(s, q) {
      if q / 8 == p / 8 { SetThenGet(s[p / 8], 7 - p % 8, bit, 7 - q % 8); }
    }
  }

  class Words {
    const list: seq<string>
    const lower: string -> string
    const index: map<string, nat>

    ghost predicate Valid() { ListOk(list, lower) && IndexOk(list, index) }

    /** The index of the words, built entry by entry. */
    constructor (list: seq<string>, lower: string -> string)
      requires ListOk(list, lower)
      ensures Valid() && this.list == list && this.lower == lower
    {
      var m: map<string, nat> := map[];
      for i := 0 to |list|
        invariant forall w | w in m :: m[w] < i && list[m[w]] == w
        invariant forall j | 0 <= j < i :: list[j] in m
      {
        m := m[list[i] := i];
      }
      this.list, this.lower, index := list, lower, m;
    }

    /** Fails for a bit count that is not positive or that the entropy does not have. A count that is no multiple of
        eleven reads on into the following bits, and runs off the end of the entropy when there are too few. */
    method EncodeWords(entropy: seq<bv8>, bits: int) returns (r: Result<seq<string>>)
      requires Valid()
      ensures bits <= 0 <==> r == Err(NotPositive)
      ensures bits > 0 && bits > 8 * |entropy| <==> r == Err(TooManyBits)
      ensures 0 < bits <= 8 * |entropy| && 11 * ((bits + 10) / 11) > 8 * |entropy| <==> r == Err(IndexPanic)
      ensures r.Ok? <==> 0 < bits <= 8 * |entropy| && 11 * ((bits + 10) / 11) <= 8 * |entropy|
      ensures r.Ok? ==> Encodes(list, entropy, bits, r.value)
    {
      hide BitsValue, Pow2;
      if bits <= 0 {
        return Err(NotPositive);
      }
      if bits > 8 * |entropy| {
        return Err(TooManyBits);
      }
      var words := (bits + 10) / 11;
      var out: seq<string> := [];
      ElevenBits();
      for i := 0 to words
        invariant |out| == i && 11 * i <= 8 * |entropy| && forall j | 0 <= j < i :: WordAt(list, entropy, j, out[j])
      {
        if 11 * i + 11 > 8 * |entropy| {
          return Err(IndexPanic);
        }
        var idx := ReadBits(entropy, 11 * i, 11);
        out := out + [list[idx]];
        assert WordAt(list, entropy, i, list[idx]);
      }
      r := Ok(out);
    }

    predicate FirstUnlisted(words: seq<string>, i: nat, w: string) {
      i < |words| && words[i] == w && lower(w) !in index && AllListed(index, lower, words[..i])
    }

    /** Fails for a bit count that is not positive, a wrong number of words, or the first word not listed; words that
        spell more bits than the bytes hold run off the end. */
    method DecodeWords(words: seq<string>, bits: int) returns (r: Result<seq<bv8>>)
      requires Valid()
      ensures bits <= 0 <==> r == Err(NotPositive)
      ensures bits > 0 && |words| != (bits + 10) / 11 <==>
              r == Err(WordCount(|words|, if bits > 0 then (bits + 10) / 11 else 0))
      ensures r.Ok? ==> Decodes(index, lower, words, bits, r.value)
      ensures r.Err? && r.error.InvalidWord? ==> exists i :: 0 <= i < |words| && FirstUnlisted(words, i, r.error.word)
      ensures r.Err? && r.error.InvalidWord? ==>
        exists i :: 0 <= i < |words| && words[i] == r.error.word && lower(words[i]) !in index &&
                    forall j | 0 <= j < i :: lower(words[j]) in index
      ensures r == Err(IndexPanic) ==> 11 * |words| > 8 * ((bits + 7) / 8)
      ensures bits > 0 && |words| == (bits + 10) / 11 ==>
        (r.Ok? <==> AllListed(index, lower, words) && 11 * |words| <= 8 * ((bits + 7) / 8))
    {
      hide Bit, NumBit;
      if bits <= 0 {
        return Err(NotPositive);
      }
      var want := (bits + 10) / 11;
      if |words| != want {
        return Err(WordCount(|words|, want));
      }
      var byteLen := (bits + 7) / 8;
      var out := new bv8[byteLen](_ => 0);
      ZeroBits(out[..]);
      for i := 0 to |words|
        invariant 11 * i <= 8 * byteLen && AllListed(index, lower, words[..i])
        invariant forall p | 0 <= p < 8 * byteLen :: Bit(out[..], p) == WordBit(index, lower, words[..i], p)
      {
        var w := words[i];
        if lower(w) !in index {
          assert FirstUnlisted(words, i, w);
          return Err(InvalidWord(w));
        }
        if 11 * i + 11 > 8 * byteLen {
          return Err(IndexPanic);
        }
        ghost var was := out[..];
        WriteBits(out, 11 * i, 11, index[lower(w)]);
        NextWord(index, lower, words, i, was, out[..]);
      }
      assert words[..|words|] == words;
      r := Ok(out[..]);
    }
  }

  lemma ZeroBits(s: seq<bv8>)
    requires forall i | 0 <= i < |s| :: s[i] == 0
    ensures forall p | 0 <= p < 8 * |s| :: Bit(s, p) == 0
  {
    forall p | 0 <= p < 8 * |s| ensures Bit(s, p) == 0 {
      var k := 7 - p % 8;
      assert k == 0 || k == 1 || k == 2 || k == 3 || k == 4 || k == 5 || k == 6 || k == 7;
    }
  }

  lemma NextWord(index: map<string, nat>, lower: string -> string, words: seq<string>, i: nat, was: seq<bv8>,
                 now: seq<bv8>)
    requires i < |words| && |was| == |now| && 11 * i + 11 <= 8 * |was|
    requires AllListed(index, lower, words[..i]) && lower(words[i]) in index
    requires forall p | 0 <= p < 8 * |was| :: Bit(was, p) == WordBit(index, lower, words[..i], p)
    requires forall p | 0 <= p < 8 * |was| ::
               Bit(now, p) ==
                 if 11 * i <= p < 11 * i + 11 then NumBit(index[lower(words[i])], 11 - 1 - (p - 11 * i))
                   else Bit(was, p)
    ensures AllListed(index, lower, words[..i + 1])
    ensures forall p | 0 <= p < 8 * |was| :: Bit(now, p) == WordBit(index, lower, words[..i + 1], p)
  {
    hide Bit, NumBit;
    forall p | 0 <= p < 8 * |was| ensures Bit(now, p) == WordBit(index, lower, words[..i + 1], p) {
      assert Bit(was, p) == WordBit(index, lower, words[..i], p);
      if 11 * i <= p < 11 * i + 11 { assert p / 11 == i; }
    }
  }

  /** Words of entropy decode to its first bits, padded with zeros to whole bytes, and words that decode are encoded
      again as their lower-case forms, whenever the bit count is a positive multiple of eleven. */
  method RoundTrips(codec: Words, e: seq<bv8>, words: seq<string>, bits: int)
    returns (out: Result<seq<bv8>>, again: Result<seq<string>>)
    requires codec.Valid() && bits > 0 && bits % 11 == 0
    ensures bits <= 8 * |e| ==>
      out.Ok? && |out.value| == (bits + 7) / 8 &&
      forall p | 0 <= p < 8 * |out.value| :: Bit(out.value, p) == if p < bits then Bit(e, p) else 0
    ensures |words| == bits / 11 && AllListed(codec.index, codec.lower, words) ==>
      again == Ok(seq(|words|, i requires 0 <= i < |words| => codec.lower(words[i])))
  {
    out, again := Err(IndexPanic), Err(IndexPanic);
    var encoded := codec.EncodeWords(e, bits);
    if encoded.Ok? {
      EncodedListed(codec.list, codec.lower, codec.index, e, bits, encoded.value);
      out := codec.DecodeWords(encoded.value, bits);
      DecodeOfEncode(codec.list, codec.lower, codec.index, e, bits, encoded.value, out.value);
    }
    var decoded := codec.DecodeWords(words, bits);
    if decoded.Ok? {
      again := codec.EncodeWords(decoded.value, bits);
      EncodeOfDecode(codec.list, codec.lower, codec.index, words, bits, decoded.value, again.value);
    }
  }

  lemma EncodedListed(list: seq<string>, lower: string -> string, index: map<string, nat>, e: seq<bv8>, bits: nat,
                      words: seq<string>)
    requires ListOk(list, lower) && IndexOk(list, index) && Encodes(list, e, bits, words)
    ensures AllListed(index, lower, words)
  {
    hide BitsValue;
    forall i | 0 <= i < |words| ensures lower(words[i]) in index {
      assert WordAt(list, e, i, words[i]);
      IndexOfWord(list, lower, index, BitsValue(e, 11 * i, 11));
    }
  }
}
