/** The streaming decoder and encoder: cursor, scratch buffer and writer are updated in place. A panic of the
    decoder is an answer of its own. */
module Bencode {
  import opened Bytes
  import opened BencodeModel

  datatype Answer = Got(v: Value) | EndMarkRead | Panic

  /** Splitting `s0` amounts to splitting its remainder `s` once `taken` has been read off the front. */
  ghost predicate SplitFrom(s0: Bytes, sep: Byte, taken: Bytes, s: Bytes) {
    SplitAt(s0, sep) ==
      match SplitAt(s, sep)
      case None => None
      case Some((pre, rest)) => Some((taken + pre, rest))
  }

  lemma SplitFromStart(s0: Bytes, sep: Byte)
    ensures SplitFrom(s0, sep, [], s0)
  {
    hide SplitAt;
    if SplitAt(s0, sep).Some? { assert [] + SplitAt(s0, sep).value.0 == SplitAt(s0, sep).value.0; }
  }

  lemma SplitFromStep(s0: Bytes, sep: Byte, taken: Bytes, s: Bytes)
    requires SplitFrom(s0, sep, taken, s)
    ensures s == [] ==> SplitAt(s0, sep) == None
    ensures s != [] && s[0] == sep ==> SplitAt(s0, sep) == Some((taken, s[1..]))
    ensures s != [] && s[0] != sep ==> SplitFrom(s0, sep, taken + [s[0]], s[1..])
  {
    if s != [] && s[0] == sep {
      assert taken + [] == taken;
    } else if s != [] && SplitAt(s[1..], sep).Some? {
      var (pre, rest) := SplitAt(s[1..], sep).value;
      assert taken + ([s[0]] + pre) == (taken + [s[0]]) + pre;
    }
  }

  /** How the length prefix of a string splits when its first digit has been read already. */
  lemma SplitAfterFirst(b: Byte, t: Bytes, sep: Byte)
    requires b != sep
    ensures SplitAt([b] + t, sep) ==
      match SplitAt(t, sep)
      case None => None
      case Some((pre, rest)) => Some(([b] + pre, rest))
  {
    assert ([b] + t)[1..] == t;
  }

  /** The length of a string that starts with `s`, if its prefix is in order and within the limit. */
  function LengthPrefix(s: Bytes, limit: nat): (n: Option<nat>)
    ensures n.Some? ==> SplitAt(s, CH_COLON).Some?
  {
    match SplitAt(s, CH_COLON)
    case None => None
    case Some((pre, rest)) =>
      if !CheckBufferedInt(pre) || DecodeLen(pre).None? || DecodeLen(pre).value > limit then None else DecodeLen(pre)
  }

  lemma SkipNoString(s: Bytes)
    ensures s == [] ==> SkipValue(s) == Bad
    ensures s != [] && s[0] == CH_E ==> SkipValue(s) == AtEnd
    ensures s != [] && (s[0] == CH_D || s[0] == CH_L) ==>
      SkipValue(s) == if SkipItems(s[1..]).None? then Bad else Took(1 + SkipItems(s[1..]).value)
    ensures s != [] && s[0] == CH_I ==>
      SkipValue(s) == if SplitAt(s[1..], CH_E).None? then Bad else Took(1 + |SplitAt(s[1..], CH_E).value.0| + 1)
    ensures s != [] && s[0] != CH_E && s[0] != CH_D && s[0] != CH_L && s[0] != CH_I && !IsDigit(s[0]) ==>
      SkipValue(s) == Bad
  {
    hide SkipItems, SplitAt, DecodeLen;
  }

  lemma SkipString(s: Bytes)
    requires s != [] && IsDigit(s[0])
    ensures SplitAt(s, CH_COLON).None? ==> SkipValue(s) == Bad
    ensures SplitAt(s, CH_COLON).Some? ==>
      var (pre, rest) := SplitAt(s, CH_COLON).value;
      SkipValue(s) ==
        if DecodeLen(pre).None? || DecodeLen(pre).value > |rest| then Bad else Took(|pre| + 1 + DecodeLen(pre).value)
  {
    hide SkipItems, SplitAt, DecodeLen;
  }

  lemma SkipStep(s: Bytes)
    ensures SkipValue(s).Bad? ==> SkipItems(s) == None
    ensures SkipValue(s).AtEnd? ==> SkipItems(s) == Some(1)
    ensures SkipValue(s).Took? ==>
      var n := SkipValue(s).n;
      (SkipItems(s).Some? <==> SkipItems(s[n..]).Some?) &&
      (SkipItems(s).Some? ==> SkipItems(s).value == n + SkipItems(s[n..]).value)
  {
    hide SkipValue;
  }

  class Decoder {
    const input: Bytes
    const maxStrLen: nat
    var pos: nat
    var offset: int
    var buf: Bytes

    constructor (data: Bytes, maxStrLen: nat)
      ensures input == data && this.maxStrLen == maxStrLen && pos == 0 && offset == 0 && buf == []
    {
      input, this.maxStrLen := data, maxStrLen;
      pos, offset, buf := 0, 0, [];
    }

    function Limit(): nat { if maxStrLen == 0 then DEFAULT_MAX_STR_LEN else maxStrLen }

    /** The cursor stands before `rest`, and the reported offset has moved by as much as the cursor. */
    ghost predicate StoodAt(pos0: nat, offset0: int, rest: Bytes)
      reads this`pos, this`offset
    {
      pos0 <= pos <= |input| && input[pos..] == rest && offset - offset0 == pos - pos0
    }

    method ReadByte() returns (b: Option<Byte>)
      requires pos <= |input|
      modifies this`pos, this`offset
      ensures pos <= |input|
      ensures input[old(pos)..] == [] ==> b == None && pos == old(pos)
      ensures input[old(pos)..] != [] ==>
              b == Some(input[old(pos)..][0]) && StoodAt(old(pos), old(offset), input[old(pos)..][1..])
    {
      if pos == |input| {
        return None;
      }
      b := Some(input[pos]);
      pos := pos + 1;
      offset := offset + 1;
    }

    /** Buffers everything before the next `sep` and consumes `sep`. */
    method ReadUntil(sep: Byte) returns (ok: bool)
      requires pos <= |input|
      modifies this`pos, this`offset, this`buf
      ensures old(pos) <= pos <= |input| && ok == SplitAt(input[old(pos)..], sep).Some?
      ensures ok ==>
        var (pre, rest) := SplitAt(input[old(pos)..], sep).value;
        StoodAt(old(pos), old(offset), rest) && buf == old(buf) + pre
    {
      hide SplitAt, SplitFrom;
      ghost var s0, pos0 := input[pos..], pos;
      ghost var taken: Bytes := [];
      SplitFromStart(s0, sep);
      while true
        invariant pos0 <= pos <= |input| && offset - old(offset) == pos - pos0
        invariant SplitFrom(s0, sep, taken, input[pos..]) && buf == old(buf) + taken
        decreases |input| - pos
      {
        ghost var s := input[pos..];
        var b := ReadByte();
        SplitFromStep(s0, sep, taken, s);
        if b.None? {
          return false;
        }
        if b.value == sep {
          return true;
        }
        Assoc3(old(buf), taken, [b.value]);
        buf := buf + [b.value];
        taken := taken + [b.value];
      }
    }

    method ParseIntInterface() returns (r: Answer)
      requires pos <= |input| && buf == []
      modifies this`pos, this`offset, this`buf
      ensures !r.EndMarkRead?
      ensures r.Panic? <==> ParseIntBody(input[old(pos)..]).Err?
      ensures r.Got? ==>
              r.v == ParseIntBody(input[old(pos)..]).v && buf == [] &&
              StoodAt(old(pos), old(offset), ParseIntBody(input[old(pos)..]).rest)
    {
      hide CheckBufferedInt, DecodeInt, IntOf, SplitAt, ParseInt64;
      var ok := ReadUntil(CH_E);
      if !ok {
        return Panic;
      }
      assert buf == SplitAt(input[old(pos)..], CH_E).value.0;
      if !CheckBufferedInt(buf) {
        return Panic;
      }
      DecodeIntSteps(buf);
      var n := ParseInt64(buf);
      var value: int;
      match n {
        case OutOfRange =>
          var big := IntOf(buf);
          if big.None? { return Panic; }
          value := big.value;
        case BadSyntax =>
          return Panic;
        case Ok(small) =>
          value := small;
      }
      buf := [];
      r := Got(Int(value));
    }

    lemma DecodeIntSteps(b: Bytes)
      ensures ParseInt64(b).Ok? ==> DecodeInt(b) == Some(ParseInt64(b).n)
      ensures ParseInt64(b).OutOfRange? ==> DecodeInt(b) == IntOf(b)
      ensures ParseInt64(b).BadSyntax? ==> DecodeInt(b) == None
    {
    }

    /** The length in front of a string, whose first digit is already in the buffer. */
    method ParseStringLength(ghost s: Bytes) returns (n: Option<nat>)
      requires pos <= |input| && |buf| == 1 && s == buf + input[pos..] && IsDigit(buf[0])
      modifies this`pos, this`offset, this`buf
      ensures n == LengthPrefix(s, Limit())
      ensures n.Some? ==> buf == [] && StoodAt(old(pos), old(offset), SplitAt(s, CH_COLON).value.1)
    {
      hide CheckBufferedInt, DecodeLen, ParseInt64, SplitAt;
      SplitAfterFirst(buf[0], input[pos..], CH_COLON);
      assert s == [buf[0]] + input[pos..];
      var ok := ReadUntil(CH_COLON);
      if !ok {
        return None;
      }
      assert buf == SplitAt(s, CH_COLON).value.0;
      if !CheckBufferedInt(buf) {
        return None;
      }
      n := DecodeLen(buf);
      if n.None? {
        return None;
      }
      buf := [];
      if n.value > Limit() {
        return None;
      }
    }

    method ParseStringInterface(ghost s: Bytes) returns (r: Answer)
      requires pos <= |input| && |buf| == 1 && s == buf + input[pos..] && IsDigit(buf[0])
      modifies this`pos, this`offset, this`buf
      ensures !r.EndMarkRead?
      ensures r.Panic? <==> ParseStrBody(s, Limit()).Err?
      ensures r.Got? ==>
              r.v == ParseStrBody(s, Limit()).v && buf == [] &&
              StoodAt(old(pos), old(offset), ParseStrBody(s, Limit()).rest)
    {
      hide CheckBufferedInt, DecodeLen, SplitAt;
      var n := ParseStringLength(s);
      if n.None? {
        return Panic;
      }
      if |input| - pos < n.value {
        return Panic;
      }
      ghost var rest := input[pos..];
      var b := input[pos..pos + n.value];
      assert rest[..n.value] == b && rest[n.value..] == input[pos + n.value..];
      pos := pos + n.value;
      offset := offset + n.value;
      r := Got(Str(b));
    }

    /** One untyped value, the end mark of the enclosing value, or a panic, exactly as ParseValue says. */
    method ParseValueInterface() returns (r: Answer)
      requires pos <= |input| && buf == []
      modifies this`pos, this`offset, this`buf
      ensures r.Panic? <==> ParseValue(input[old(pos)..], Limit()).Err?
      ensures r.EndMarkRead? <==> ParseValue(input[old(pos)..], Limit()).End?
      ensures r.Got? ==> ParseValue(input[old(pos)..], Limit()).Val? && r.v == ParseValue(input[old(pos)..], Limit()).v
      ensures !r.Panic? ==> StoodAt(old(pos), old(offset), ParseValue(input[old(pos)..], Limit()).rest) && buf == []
      decreases |input| - pos, 0
    {
      hide ParseDictTail, ParseListTail, ParseIntBody, ParseStrBody;
      ghost var s := input[pos..];
      var b := ReadByte();
      if b.None? {
        return Panic;
      }
      assert s == [b.value] + input[pos..];
      if b.value == CH_E {
        r := EndMarkRead;
      } else if b.value == CH_D {
        r := ParseDictInterface();
      } else if b.value == CH_L {
        r := ParseListInterface();
      } else if b.value == CH_I {
        r := ParseIntInterface();
      } else if b.value >= 48 && b.value <= 57 {
        buf := buf + [b.value];
        r := ParseStringInterface(s);
      } else {
        r := Panic;
      }
    }

    method ParseListInterface() returns (r: Answer)
      requires pos <= |input| && buf == []
      modifies this`pos, this`offset, this`buf
      ensures !r.EndMarkRead?
      ensures r.Panic? <==> ParseListTail(input[old(pos)..], Limit(), []).Err?
      ensures r.Got? ==> r.v == ParseListTail(input[old(pos)..], Limit(), []).v &&
                         StoodAt(old(pos), old(offset), ParseListTail(input[old(pos)..], Limit(), []).rest) && buf == []
      decreases |input| - pos, 1
    {
      hide ParseValue;
      ghost var s0, pos0 := input[pos..], pos;
      var list: seq<Value> := [];
      var value := ParseValueInterface();
      ghost var s := s0;
      while value.Got?
        invariant ParseListTail(s0, Limit(), []) == ParseListTail(s, Limit(), list)
        invariant value.Panic? <==> ParseValue(s, Limit()).Err?
        invariant value.EndMarkRead? <==> ParseValue(s, Limit()).End?
        invariant value.Got? ==> ParseValue(s, Limit()).Val? && value.v == ParseValue(s, Limit()).v
        invariant !value.Panic? ==>
                  pos <= |input| && input[pos..] == ParseValue(s, Limit()).rest && buf == [] && pos > pos0 &&
                                    offset - old(offset) == pos - pos0
        decreases if value.Panic? then 0 else |input| - pos + 1
      {
        list := list + [value.v];
        s := input[pos..];
        value := ParseValueInterface();
      }
      r := if value.Panic? then Panic else Got(List(list));
    }

    method ParseDictInterface() returns (r: Answer)
      requires pos <= |input| && buf == []
      modifies this`pos, this`offset, this`buf
      ensures !r.EndMarkRead?
      ensures r.Panic? <==> ParseDictTail(input[old(pos)..], Limit(), map[], None).Err?
      ensures r.Got? ==> r.v == ParseDictTail(input[old(pos)..], Limit(), map[], None).v &&
                         StoodAt(old(pos), old(offset), ParseDictTail(input[old(pos)..], Limit(), map[], None).rest) &&
                           buf == []
      decreases |input| - pos, 1
    {
      hide ParseValue, LexLess;
      ghost var s0, pos0 := input[pos..], pos;
      var dict: map<Bytes, Value> := map[];
      var lastKey: Option<Bytes> := None;
      while true
        invariant pos <= |input| && buf == [] && pos >= pos0 && offset - old(offset) == pos - pos0
        invariant ParseDictTail(s0, Limit(), map[], None) == ParseDictTail(input[pos..], Limit(), dict, lastKey)
        decreases |input| - pos
      {
        ghost var s := input[pos..];
        var key := ParseValueInterface();
        if key.EndMarkRead? {
          break;
        }
        if key.Panic? || !key.v.Str? {
          return Panic;
        }
        if lastKey.Some? && !LexLess(lastKey.value, key.v.s) {
          return Panic;
        }
        var value := ParseValueInterface();
        if !value.Got? {
          return Panic;
        }
        dict := dict[key.v.s := value.v];
        lastKey := Some(key.v.s);
      }
      r := Got(Dict(dict));
    }

    /** Copies one raw value into the buffer: on success exactly the bytes it takes, nothing for the end mark. */
    method ReadOneValue() returns (r: Option<bool>)
      requires pos <= |input|
      modifies this`pos, this`offset, this`buf
      ensures old(pos) <= pos <= |input|
      ensures r.None? <==> SkipValue(input[old(pos)..]).Bad?
      ensures r == Some(false) <==> SkipValue(input[old(pos)..]).AtEnd?
      ensures r == Some(false) ==> pos == old(pos) && offset == old(offset) && buf == old(buf)
      ensures r == Some(true) ==> Copied(old(pos), old(offset), old(buf), SkipValue(input[old(pos)..]).n)
      decreases |input| - pos, 0
    {
      hide SkipValue, SkipItems, SplitAt, DecodeLen;
      ghost var s, pos0 := input[pos..], pos;
      SkipNoString(s);
      if pos == |input| {
        return None;
      }
      var b := input[pos];
      assert s[0] == b;
      if b == CH_E {
        return Some(false);
      }
      pos := pos + 1;
      offset := offset + 1;
      buf := buf + [b];
      assert s == [b] + input[pos..];
      r := ReadRawBody(s, b);
      Extend(input, old(buf), pos0, pos0 + 1, pos);
    }

    /** The rest of a raw value whose first byte `b` has been copied. */
    method ReadRawBody(ghost s: Bytes, b: Byte) returns (r: Option<bool>)
      requires pos <= |input| && buf != [] && buf[|buf| - 1] == b && b != CH_E && s == [b] + input[pos..]
      modifies this`pos, this`offset, this`buf
      ensures old(pos) <= pos <= |input|
      ensures r != Some(false) && (r.None? <==> SkipValue(s).Bad?) && !SkipValue(s).AtEnd?
      ensures r == Some(true) ==> SkipValue(s).Took? && Copied(old(pos), old(offset), old(buf), SkipValue(s).n - 1)
      decreases |input| - pos, 2
    {
      hide SkipValue, SkipItems, SplitAt, DecodeLen;
      SkipNoString(s);
      assert s[1..] == input[pos..];
      if b == CH_D || b == CH_L {
        var ok := ReadItems();
        r := if ok then Some(true) else None;
      } else if b == CH_I {
        var ok := ReadRawInt(s);
        r := if ok then Some(true) else None;
      } else if b >= 48 && b <= 57 {
        SkipString(s);
        r := ReadRawString(s, b);
      } else {
        r := None;
      }
    }

    /** `n` bytes were consumed and appended to the buffer. */
    ghost predicate Copied(pos0: nat, offset0: int, buf0: Bytes, n: nat)
      reads this`pos, this`offset, this`buf
    {
      pos == pos0 + n <= |input| && offset == offset0 + n && buf == buf0 + input[pos0..pos]
    }

    /** The values of a list or dictionary and its end mark. */
    method ReadItems() returns (ok: bool)
      requires pos <= |input|
      modifies this`pos, this`offset, this`buf
      ensures old(pos) <= pos <= |input|
      ensures ok == SkipItems(input[old(pos)..]).Some?
      ensures ok ==> Copied(old(pos), old(offset), old(buf), SkipItems(input[old(pos)..]).value)
      decreases |input| - pos, 1
    {
      hide SkipValue, SkipItems;
      ghost var s0, pos0, buf0 := input[pos..], pos, buf;
      var more := true;
      while more
        invariant pos0 <= pos <= |input| && Copied(pos0, old(offset), buf0, pos - pos0)
        invariant SkipItems(s0).Some? <==> SkipItems(input[pos..]).Some?
        invariant SkipItems(s0).Some? ==> SkipItems(s0).value == pos - pos0 + SkipItems(input[pos..]).value
        invariant !more ==> SkipValue(input[pos..]).AtEnd?
        decreases |input| - pos, more
      {
        ghost var s, pos1, buf1 := input[pos..], pos, buf;
        SkipStep(s);
        var r := ReadOneValue();
        if r.None? {
          return false;
        }
        if r.value {
          ghost var n := SkipValue(s).n;
          assert s[n..] == input[pos..];
          Extend(input, buf0, pos0, pos1, pos);
        }
        more := r.value;
      }
      SkipStep(input[pos..]);
      ghost var pos1 := pos;
      var b := ReadByte();
      assert input[pos1..pos] == [b.value];
      Extend(input, buf0, pos0, pos1, pos);
      buf := buf + [b.value];
      ok := true;
    }

    method ReadRawInt(ghost s: Bytes) returns (ok: bool)
      requires pos <= |input| && s == [CH_I] + input[pos..]
      modifies this`pos, this`offset, this`buf
      ensures old(pos) <= pos <= |input|
      ensures ok == SkipValue(s).Took? && (!ok ==> SkipValue(s).Bad?)
      ensures ok ==> Copied(old(pos), old(offset), old(buf), SkipValue(s).n - 1)
    {
      hide SkipValue, SplitAt;
      ghost var t, buf0, pos0 := input[pos..], buf, pos;
      assert s[1..] == t;
      SkipNoString(s);
      ok := ReadUntil(CH_E);
      if !ok {
        return;
      }
      buf := buf + [CH_E];
      ghost var (pre, rest) := SplitAt(t, CH_E).value;
      assert input[pos0..pos] == pre + [CH_E] by { HeadOf(input, pos0, pos, pre + [CH_E], rest); }
      Assoc3(buf0, pre, [CH_E]);
    }

    /** A raw string, whose first digit `b` ends the buffer already. */
    method ReadRawString(ghost s: Bytes, b: Byte) returns (r: Option<bool>)
      requires pos <= |input| && buf != [] && buf[|buf| - 1] == b && s == [b] + input[pos..] && IsDigit(b)
      modifies this`pos, this`offset, this`buf
      ensures old(pos) <= pos <= |input|
      ensures r != Some(false) && (r.None? <==> SkipValue(s).Bad?)
      ensures r == Some(true) ==> SkipValue(s).Took? && Copied(old(pos), old(offset), old(buf), SkipValue(s).n - 1)
    {
      hide DecodeLen, SplitAt, SkipItems, SkipValue;
      SkipString(s);
      ghost var buf0, t, pos0 := buf, input[pos..], pos;
      var start := |buf| - 1;
      SplitAfterFirst(b, t, CH_COLON);
      var ok := ReadUntil(CH_COLON);
      if !ok {
        return None;
      }
      ghost var (pre, rest) := SplitAt(t, CH_COLON).value;
      assert buf[start..] == [b] + pre;
      var n := DecodeLen(buf[start..]);
      if n.None? {
        return None;
      }
      buf := buf + [CH_COLON];
      if |input| - pos < n.value {
        return None;
      }
      HeadOf(input, pos0, pos, pre + [CH_COLON], rest);
      Assoc3(buf0, pre, [CH_COLON]);
      ghost var pos1 := pos;
      buf := buf + input[pos..pos + n.value];
      pos := pos + n.value;
      offset := offset + n.value;
      Extend(input, buf0, pos0, pos1, pos);
      r := Some(true);
    }
  }

  lemma HeadOf(input: Bytes, from: nat, to: nat, head: Bytes, rest: Bytes)
    requires from <= to <= |input| && input[to..] == rest
    requires input[from..] == head + rest ||
             (|head| > 0 && input[from..] == head[..|head| - 1] + ([head[|head| - 1]] + rest))
    ensures input[from..to] == head
  {
    if |head| > 0 { assert head == head[..|head| - 1] + [head[|head| - 1]]; }
    assert input[from..] == head + rest;
    assert |input[from..]| == |head| + |rest|;
    assert input[from..to] == input[from..][..|head|];
  }

  /** A buffer that ends with what was read so far still does after one more piece. */
  lemma Extend(input: Bytes, buf0: Bytes, a: nat, b: nat, c: nat)
    requires a <= b <= c <= |input|
    ensures (buf0 + input[a..b]) + input[b..c] == buf0 + input[a..c]
  {
    assert input[a..c] == input[a..b] + input[b..c];
  }

  lemma Assoc3(a: Bytes, b: Bytes, c: Bytes)
    ensures (a + b) + c == a + (b + c)
  {
  }

  lemma Assoc4(a: Bytes, b: Bytes, c: Bytes, d: Bytes)
    ensures ((a + b) + c) + d == a + (b + (c + d))
  {
  }

  class Encoder {
    var w: Bytes

    constructor ()
      ensures w == []
    {
      w := [];
    }

    /** Writes a string through a scratch buffer of 64 bytes. */
    method WriteString(text: Bytes)
      modifies this
      ensures w == old(w) + text
    {
      var s := text;
      while s != []
        invariant w + s == old(w) + text
        decreases |s|
      {
        var n := if |s| < 64 then |s| else 64;
        var scratch := s[..n];
        assert s == scratch + s[n..];
        s := s[n..];
        w := w + scratch;
      }
      assert w + [] == w;
    }

    method ReflectString(s: Bytes)
      modifies this
      ensures w == old(w) + EncodeStr(s)
    {
      hide Dec;
      w := w + Dec(|s|);
      WriteString([CH_COLON]);
      WriteString(s);
      assert ((old(w) + Dec(|s|)) + [CH_COLON]) + s == old(w) + (Dec(|s|) + ([CH_COLON] + s));
    }

    /** Appends the encoding of a value: dictionaries in the order of their sorted keys. */
    method ReflectValue(v: Value)
      modifies this
      ensures w == old(w) + Encode(v)
      decreases v, 1
    {
      hide SortedKeys, IntText, EncodeStr;
      match v {
        case Int(n) =>
          WriteString([CH_I]);
          w := w + IntText(n);
          WriteString([CH_E]);
          Assoc4(old(w), [CH_I], IntText(n), [CH_E]);
        case Str(s) =>
          ReflectString(s);
        case List(vs) =>
          WriteString([CH_L]);
          ReflectAll(v);
          WriteString([CH_E]);
          Assoc4(old(w), [CH_L], EncodeAll(vs), [CH_E]);
        case Dict(m) =>
          WriteString([CH_D]);
          ReflectEntries(v);
          WriteString([CH_E]);
          Assoc4(old(w), [CH_D], EncodeEntries(v, SortedKeys(m.Keys)), [CH_E]);
      }
    }

    method ReflectAll(v: Value)
      requires v.List?
      modifies this
      ensures w == old(w) + EncodeAll(v.vs)
      decreases v, 0
    {
      hide Encode;
      var vs := v.vs;
      ghost var w1 := w;
      var i := 0;
      while i < |vs|
        invariant 0 <= i <= |vs|
        invariant w + EncodeAll(vs[i..]) == w1 + EncodeAll(vs)
      {
        ghost var w2 := w;
        ReflectValue(vs[i]);
        assert vs[i..][1..] == vs[i + 1..];
        Assoc3(w2, Encode(vs[i]), EncodeAll(vs[i + 1..]));
        i := i + 1;
      }
      assert w + [] == w;
    }

    method ReflectEntries(v: Value)
      requires v.Dict?
      modifies this
      ensures w == old(w) + EncodeEntries(v, SortedKeys(v.m.Keys))
      decreases v, 0
    {
      hide Encode, SortedKeys, EncodeStr;
      ghost var w1 := w;
      var keys := SortedKeys(v.m.Keys);
      var i := 0;
      while i < |keys|
        invariant 0 <= i <= |keys|
        invariant w + EncodeEntries(v, keys[i..]) == w1 + EncodeEntries(v, keys)
      {
        var key := keys[i];
        assert key in keys;
        ghost var w2 := w;
        ReflectString(key);
        ReflectValue(v.m[key]);
        assert keys[i..][1..] == keys[i + 1..] && keys[i..][0] == key;
        Assoc4(w2, EncodeStr(key), Encode(v.m[key]), EncodeEntries(v, keys[i + 1..]));
        i := i + 1;
      }
      assert w + [] == w;
    }
  }

  /** Marshal and Unmarshal, end to end. */
  method Marshal(v: Value) returns (b: Bytes)
    ensures b == Encode(v)
  {
    var e := new Encoder();
    e.ReflectValue(v);
    b := e.w;
    assert [] + Encode(v) == Encode(v);
  }

  method Unmarshal(data: Bytes, maxStrLen: nat) returns (r: Option<Value>)
    ensures r == Decode(data, if maxStrLen == 0 then DEFAULT_MAX_STR_LEN else maxStrLen)
  {
    hide ParseValue;
    var d := new Decoder(data, maxStrLen);
    assert data[0..] == data;
    var a := d.ParseValueInterface();
    if a.Got? && d.pos == |d.input| {
      r := Some(a.v);
    } else {
      r := None;
    }
  }
}
