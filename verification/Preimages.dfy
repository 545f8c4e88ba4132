/** The byte strings that are hashed or signed, and how much of the message they pin down. */
module Preimages {
  import opened Bytes
  import opened Xport
  import opened BencodeModel

  const TWO_TO_32: nat := 0x1_0000_0000

  // ---------- the envelope's authentication code ----------

  /** A field with its length in front, in four bytes; the length of a longer field is cut to them. */
  function Field(b: Bytes): Bytes { BigEndian(4, |b| % 0x1_0000_0000) + b }

  function Fields(xs: seq<Bytes>): Bytes { if xs == [] then [] else Field(xs[0]) + Fields(xs[1..]) }

  function Stamp(t: int): Bytes { BigEndian(8, U64(t)) }

  /** What is hashed for an envelope. */
  function MacInput(env: Envelope): Bytes {
    Field(env.id) + Stamp(env.timestamp) + Fields([env.from, env.kind, env.presenceSource, env.payload, env.padding])
  }

  /** All lengths are below 2^32, and the time is a 64-bit number. */
  predicate Bounded(env: Envelope) {
    && |env.id| < TWO_TO_32 && |env.from| < TWO_TO_32 && |env.kind| < TWO_TO_32 && |env.presenceSource| < TWO_TO_32
    && |env.payload| < TWO_TO_32 && |env.padding| < TWO_TO_32 && Int64(env.timestamp)
  }

  lemma Pow256Four()
    ensures Pow256(4) == TWO_TO_32
  {
    assert Pow256(2) == 65536;
    assert Pow256(4) == 256 * (256 * Pow256(2));
  }

  lemma FieldSplits(a: Bytes, x: Bytes, b: Bytes, y: Bytes)
    requires |a| < TWO_TO_32 && |b| < TWO_TO_32 && Field(a) + x == Field(b) + y
    ensures a == b && x == y
  {
    hide BigEndian;
    var s, t := Field(a) + x, Field(b) + y;
    assert s[..4] == BigEndian(4, |a|) && t[..4] == BigEndian(4, |b|);
    Pow256Four();
    BeInjective(4, |a|, |b|);
    assert s[4..4 + |a|] == a && t[4..4 + |b|] == b;
    assert s[4 + |a|..] == x && t[4 + |b|..] == y;
  }

  lemma {:induction false} FieldsSplit(xs: seq<Bytes>, ys: seq<Bytes>)
    requires |xs| == |ys| && Fields(xs) == Fields(ys)
    requires forall i | 0 <= i < |xs| :: |xs[i]| < TWO_TO_32 && |ys[i]| < TWO_TO_32
    ensures xs == ys
  {
    hide Field;
    if xs != [] {
      FieldSplits(xs[0], Fields(xs[1..]), ys[0], Fields(ys[1..]));
      FieldsSplit(xs[1..], ys[1..]);
      assert xs == [xs[0]] + xs[1..] && ys == [ys[0]] + ys[1..];
    }
  }

  /** The hashed bytes determine all seven fields. */
  lemma MacInputDeterminesEnvelope(a: Envelope, b: Envelope)
    requires Bounded(a) && Bounded(b) && MacInput(a) == MacInput(b)
    ensures a == b
  {
    hide Field, Fields, Stamp;
    var xs := [a.from, a.kind, a.presenceSource, a.payload, a.padding];
    var ys := [b.from, b.kind, b.presenceSource, b.payload, b.padding];
    assert MacInput(a) == Field(a.id) + (Stamp(a.timestamp) + Fields(xs));
    assert MacInput(b) == Field(b.id) + (Stamp(b.timestamp) + Fields(ys));
    FieldSplits(a.id, Stamp(a.timestamp) + Fields(xs), b.id, Stamp(b.timestamp) + Fields(ys));
    StampSplits(a.timestamp, Fields(xs), b.timestamp, Fields(ys));
    FieldsSplit(xs, ys);
    assert xs[0] == ys[0] && xs[1] == ys[1] && xs[2] == ys[2] && xs[3] == ys[3] && xs[4] == ys[4];
  }

  lemma StampSplits(t: int, x: Bytes, u: int, y: Bytes)
    requires Int64(t) && Int64(u) && Stamp(t) + x == Stamp(u) + y
    ensures t == u && x == y
  {
    hide BigEndian;
    assert (Stamp(t) + x)[..8] == Stamp(t) && (Stamp(u) + y)[..8] == Stamp(u);
    assert (Stamp(t) + x)[8..] == x && (Stamp(u) + y)[8..] == y;
    TimestampInjective(8, t, u);
  }

  function Zeros(n: nat): Bytes { seq(n, _ => 0) }

  /** The bound is needed: at 2^32 the length in front wraps, and a payload can pass for padding. */
  lemma LongFieldsCollide(env: Envelope)
    ensures var a := env.(payload := Zeros(TWO_TO_32), padding := []);
            var b := env.(payload := [], padding := Zeros(TWO_TO_32));
            a != b && MacInput(a) == MacInput(b)
  {
    hide BigEndian;
    var z := Zeros(TWO_TO_32);
    assert z[..4] == BigEndian(4, 0) by { ZeroLength(); }
    assert |z| % 0x1_0000_0000 == 0;
    assert Field(z) == BigEndian(4, 0) + z && Field([]) == BigEndian(4, 0);
    assert z + BigEndian(4, 0) == BigEndian(4, 0) + z by { ZeroLength(); }
    TwoFields(z, []);
    TwoFields([], z);
    assert Field(z) + Field([]) == Field([]) + Field(z) by {
      assert BigEndian(4, 0) + z + BigEndian(4, 0) == BigEndian(4, 0) + (BigEndian(4, 0) + z);
    }
    var a, b := env.(payload := z, padding := []), env.(payload := [], padding := z);
    TailFields(a);
    TailFields(b);
    assert |a.payload| != |b.payload|;
  }

  lemma ZeroLength()
    ensures BigEndian(4, 0) == [0, 0, 0, 0]
  {
    assert BigEndian(2, 0) == [0, 0];
  }

  lemma FieldsStep(x: Bytes, xs: seq<Bytes>)
    ensures Fields([x] + xs) == Field(x) + Fields(xs)
  {
    hide Field;
    assert ([x] + xs)[1..] == xs;
  }

  lemma TwoFields(x: Bytes, y: Bytes)
    ensures Fields([x, y]) == Field(x) + Field(y)
  {
    hide Field, Fields;
    FieldsStep(x, [y]);
    FieldsStep(y, []);
    assert [x] + [y] == [x, y] && [y] + [] == [y];
    assert Fields([]) == [] by { NoFields(); }
  }

  lemma NoFields()
    ensures Fields([]) == []
  {
  }

  lemma TailFields(env: Envelope)
    ensures MacInput(env) == Field(env.id) + Stamp(env.timestamp) +
                             (Field(env.from) +
                               (Field(env.kind) + (Field(env.presenceSource) + Fields([env.payload, env.padding]))))
  {
    hide Field, Fields, Stamp;
    var two := [env.payload, env.padding];
    FieldsStep(env.presenceSource, two);
    FieldsStep(env.kind, [env.presenceSource] + two);
    FieldsStep(env.from, [env.kind] + ([env.presenceSource] + two));
    assert [env.from] + ([env.kind] + ([env.presenceSource] + two)) ==
           [env.from, env.kind, env.presenceSource, env.payload, env.padding];
  }

  /** A hash being fed. */
  class HashState {
    var fed: Bytes

    constructor ()
      ensures fed == []
    {
      fed := [];
    }

    method Write(b: Bytes)
      modifies this`fed
      ensures fed == old(fed) + b
    {
      fed := fed + b;
    }

    method WriteField(b: Bytes)
      modifies this`fed
      ensures fed == old(fed) + Field(b)
    {
      Write(BigEndian(4, |b| % 0x1_0000_0000));
      Write(b);
    }

    /** Feeds an envelope, field by field. */
    method FeedEnvelope(env: Envelope)
      modifies this`fed
      ensures fed == old(fed) + MacInput(env)
    {
      hide Field, Fields, Stamp;
      WriteField(env.id);
      Write(Stamp(env.timestamp));
      WriteField(env.from);
      WriteField(env.kind);
      WriteField(env.presenceSource);
      WriteField(env.payload);
      WriteField(env.padding);
      TailFields(env);
      TwoFields(env.payload, env.padding);
    }
  }

  // ---------- the signed buffer of a mutable item ----------

  const SALT_KEY: Bytes := [52, 58, 115, 97, 108, 116]
  const SEQ_KEY: Bytes := [51, 58, 115, 101, 113]
  const V_KEY: Bytes := [49, 58, 118]

  /** Key and value of the salt if there is one, then those of the sequence number, then the encoded value. */
  function BufferToSign(salt: Bytes, bv: Bytes, seqNo: int): Bytes {
    (if salt != [] then SALT_KEY + Encode(Str(salt)) else []) + (SEQ_KEY + Encode(Int(seqNo)) + V_KEY + bv)
  }

  /** The signed bytes determine the salt, the sequence number and the value. */
  lemma SignedBytesDetermineItem(salt: Bytes, v: Value, seqNo: int, salt': Bytes, v': Value, seqNo': int)
    requires |salt| < TWO_TO_63 && |salt'| < TWO_TO_63
    requires exists max: nat :: max < TWO_TO_63 && Fits(v, max) && Fits(v', max)
    requires BufferToSign(salt, Encode(v), seqNo) == BufferToSign(salt', Encode(v'), seqNo')
    ensures salt == salt' && seqNo == seqNo' && v == v'
  {
    hide Encode;
    var tail := SEQ_KEY + Encode(Int(seqNo)) + V_KEY + Encode(v);
    var tail' := SEQ_KEY + Encode(Int(seqNo')) + V_KEY + Encode(v');
    SaltSplits(salt, tail, salt', tail');
    var max: nat :| max < TWO_TO_63 && Fits(v, max) && Fits(v', max);
    TailSplits(v, seqNo, v', seqNo', max);
  }

  lemma SaltSplits(salt: Bytes, tail: Bytes, salt': Bytes, tail': Bytes)
    requires |salt| < TWO_TO_63 && |salt'| < TWO_TO_63 && SEQ_KEY <= tail && SEQ_KEY <= tail'
    requires (if salt != [] then SALT_KEY + Encode(Str(salt)) else []) + tail ==
             (if salt' != [] then SALT_KEY + Encode(Str(salt')) else []) + tail'
    ensures salt == salt' && tail == tail'
  {
    hide Encode;
    assert tail[0] == tail'[0] == 51;
    if salt != [] && salt' != [] {
      KeyThenValue(SALT_KEY, Str(salt), tail, SALT_KEY, Str(salt'), tail', TWO_TO_63 - 1);
    } else {
      SaltedOrNot(salt, tail);
      SaltedOrNot(salt', tail');
    }
  }

  lemma TailSplits(v: Value, seqNo: int, v': Value, seqNo': int, max: nat)
    requires max < TWO_TO_63 && Fits(v, max) && Fits(v', max)
    requires SEQ_KEY + Encode(Int(seqNo)) + V_KEY + Encode(v) == SEQ_KEY + Encode(Int(seqNo')) + V_KEY + Encode(v')
    ensures seqNo == seqNo' && v == v'
  {
    hide Encode;
    var x, x' := V_KEY + Encode(v), V_KEY + Encode(v');
    assert SEQ_KEY + Encode(Int(seqNo)) + V_KEY + Encode(v) == SEQ_KEY + Encode(Int(seqNo)) + x;
    assert SEQ_KEY + Encode(Int(seqNo')) + V_KEY + Encode(v') == SEQ_KEY + Encode(Int(seqNo')) + x';
    KeyThenValue(SEQ_KEY, Int(seqNo), x, SEQ_KEY, Int(seqNo'), x', 0);
    assert x[3..] == Encode(v) && x'[3..] == Encode(v');
    assert Encode(v) + [] == Encode(v') + [];
    EncodingsAreSelfDelimiting(v, v', [], [], max);
  }

  lemma KeyThenValue(k: Bytes, u: Value, t: Bytes, k': Bytes, v: Value, t': Bytes, max: nat)
    requires k == k' && Fits(u, max) && Fits(v, max) && max < TWO_TO_63
    requires k + Encode(u) + t == k' + Encode(v) + t'
    ensures u == v && t == t'
  {
    hide Encode;
    assert (k + Encode(u) + t)[|k|..] == Encode(u) + t && (k' + Encode(v) + t')[|k|..] == Encode(v) + t';
    EncodingsAreSelfDelimiting(u, v, t, t', max);
  }

  /** A salt shows in the first byte. */
  lemma SaltedOrNot(salt: Bytes, tail: Bytes)
    requires tail != [] && tail[0] == 51
    ensures var s := (if salt != [] then SALT_KEY + Encode(Str(salt)) else []) + tail;
            s[0] == if salt != [] then 52 else 51
    ensures salt == [] ==> ([] + tail) == tail
  {
    hide Encode;
  }

  /** Builds the buffer by appending. */
  method SignBuffer(salt: Bytes, bv: Bytes, seqNo: int) returns (out: Bytes)
    ensures out == BufferToSign(salt, bv, seqNo)
  {
    hide Encode, EncodeStr, IntText;
    out := [];
    if |salt| != 0 {
      out := out + SALT_KEY;
      out := out + EncodeStr(salt);
      StrForm(salt);
    }
    var head := out;
    out := out + (SEQ_KEY + [CH_I] + IntText(seqNo) + [CH_E] + V_KEY);
    out := out + bv;
    IntForm(seqNo);
    assert SEQ_KEY + [CH_I] + IntText(seqNo) + [CH_E] + V_KEY == SEQ_KEY + ([CH_I] + (IntText(seqNo) + [CH_E])) + V_KEY;
    assert out == head + (SEQ_KEY + Encode(Int(seqNo)) + V_KEY + bv);
  }

  lemma IntForm(n: int)
    ensures Encode(Int(n)) == [CH_I] + (IntText(n) + [CH_E])
  {
  }
}
