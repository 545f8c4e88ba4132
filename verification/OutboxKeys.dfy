/** The key families of the outbox and their byte layout in the key-value store. */
module OutboxKeys {
  import opened Bytes
  import opened Xport

  datatype State = Enqueued | Sent | Delivered | Read | Failed

  datatype Key =
    | RowKey(id: Id)
    | DueKey(at: int, id: Id)
    | StateKey(state: State, id: Id)
    | LegacyKey(suffix: Bytes)

  /** Nanosecond timestamps are 64-bit signed integers. */
  predicate KeyInRange(k: Key) { k.DueKey? ==> Int64(k.at) }

  predicate IsAscii(s: string) { forall i | 0 <= i < |s| :: s[i] < 128 as char }

  function Ascii(s: string): (b: Bytes)
    requires IsAscii(s)
    ensures |b| == |s|
  {
    seq(|s|, i requires 0 <= i < |s| => s[i] as int)
  }

  function StateName(st: State): (s: string)
    ensures IsAscii(s) && |s| > 0
  {
    match st
    case Enqueued => "enqueued"
    case Sent => "sent"
    case Delivered => "delivered"
    case Read => "read"
    case Failed => "failed"
  }

  const COLON: Byte := 58
  const TIME_WIDTH: nat := 8

  function RowPrefix(): Bytes { Ascii("outbox:") }
  function DuePrefix(): Bytes { Ascii("outbox-due:") }
  function StatePrefix(): Bytes { Ascii("outbox-state:") }
  function LegacyPrefix(): Bytes { Ascii("xport-queue:") }

  /** The eight bytes of `uint64(at)`. */
  function TimeBytes(at: int): Bytes { BigEndian(TIME_WIDTH, U64(at)) }

  function StateScanPrefix(st: State): Bytes { StatePrefix() + (Ascii(StateName(st)) + [COLON]) }

  function KeyBytes(k: Key): Bytes {
    match k
    case RowKey(id) => RowPrefix() + id
    case DueKey(at, id) => DuePrefix() + (TimeBytes(at) + ([COLON] + id))
    case StateKey(st, id) => StateScanPrefix(st) + id
    case LegacyKey(suffix) => LegacyPrefix() + suffix
  }

  /** The byte that tells the family apart sits right after the shared text. */
  lemma FamilyByte(k: Key)
    ensures var b := KeyBytes(k); |b| > 7 || (k.RowKey? && |b| == 7)
    ensures var b := KeyBytes(k);
      (b[0] == 120 <==> k.LegacyKey?) &&
      (!k.LegacyKey? ==> (b[6] == COLON <==> k.RowKey?)) &&
      (k.DueKey? ==> b[7] == 100) && (k.StateKey? ==> b[7] == 115)
  {
    match k
    case RowKey(id) => assert KeyBytes(k)[..7] == RowPrefix();
    case DueKey(at, id) => assert KeyBytes(k)[..11] == DuePrefix();
    case StateKey(st, id) => assert KeyBytes(k)[..13] == StatePrefix();
    case LegacyKey(suffix) => assert KeyBytes(k)[..12] == LegacyPrefix();
  }

  /** The first letter of a state's name identifies the state. */
  lemma StateLetter(st: State, id: Id)
    ensures |KeyBytes(StateKey(st, id))| > 13
    ensures KeyBytes(StateKey(st, id))[13] == StateName(st)[0] as int
    ensures KeyBytes(StateKey(st, id))[13 + |StateName(st)| + 1..] == id
  {
    assert KeyBytes(StateKey(st, id))[13..] == (Ascii(StateName(st)) + [COLON]) + id;
  }

  lemma DueKeyInjective(t: int, a: Id, u: int, b: Id)
    requires Int64(t) && Int64(u) && KeyBytes(DueKey(t, a)) == KeyBytes(DueKey(u, b))
    ensures t == u && a == b
  {
    var x, y := TimeBytes(t) + ([COLON] + a), TimeBytes(u) + ([COLON] + b);
    assert KeyBytes(DueKey(t, a))[11..] == x && KeyBytes(DueKey(u, b))[11..] == y;
    assert x[..8] == TimeBytes(t) && y[..8] == TimeBytes(u);
    assert x[9..] == a && y[9..] == b;
    TimestampInjective(TIME_WIDTH, t, u);
  }

  /** Distinct keys never share a byte string, so the key families never overwrite each other. */
  lemma KeyBytesInjective(j: Key, k: Key)
    requires KeyInRange(j) && KeyInRange(k)
    requires KeyBytes(j) == KeyBytes(k)
    ensures j == k
  {
    FamilyByte(j);
    FamilyByte(k);
    match j
    case RowKey(id) =>
      assert KeyBytes(j)[7..] == id && KeyBytes(k)[7..] == k.id;
    case LegacyKey(suffix) =>
      assert KeyBytes(j)[12..] == suffix && KeyBytes(k)[12..] == k.suffix;
    case DueKey(at, id) =>
      DueKeyInjective(at, id, k.at, k.id);
    case StateKey(st, id) =>
      StateLetter(st, id);
      StateLetter(k.state, k.id);
  }

  /** Byte order of due keys is due order: first by time, then by id. Times must not be negative:
      the unsigned rendering would put a negative time after every other. */
  lemma DueKeyOrder(t: int, a: Id, u: int, b: Id)
    requires 0 <= t < TWO_TO_63 && 0 <= u < TWO_TO_63
    ensures LexLess(KeyBytes(DueKey(t, a)), KeyBytes(DueKey(u, b))) <==> t < u || (t == u && LexLess(a, b))
  {
    LexSamePrefix(DuePrefix(), TimeBytes(t) + ([COLON] + a), TimeBytes(u) + ([COLON] + b));
    LexConcat(TimeBytes(t), [COLON] + a, TimeBytes(u), [COLON] + b);
    LexSamePrefix([COLON], a, b);
    TimestampOrder(TIME_WIDTH, t, u);
    if TimeBytes(t) == TimeBytes(u) { TimestampInjective(TIME_WIDTH, t, u); }
  }

  /** A prefix scan sees one family only. */
  lemma ScanSeesOneFamily(k: Key)
    ensures RowPrefix() <= KeyBytes(k) <==> k.RowKey?
    ensures DuePrefix() <= KeyBytes(k) <==> k.DueKey?
    ensures forall st :: StateScanPrefix(st) <= KeyBytes(k) <==> k.StateKey? && k.state == st
  {
    FamilyByte(k);
    if RowPrefix() <= KeyBytes(k) { assert KeyBytes(k)[6] == RowPrefix()[6] && KeyBytes(k)[0] == RowPrefix()[0]; }
    if DuePrefix() <= KeyBytes(k) {
      assert KeyBytes(k)[7] == DuePrefix()[7] && KeyBytes(k)[6] == DuePrefix()[6] && KeyBytes(k)[0] == DuePrefix()[0];
    }
    forall st ensures StateScanPrefix(st) <= KeyBytes(k) <==> k.StateKey? && k.state == st {
      var p := StateScanPrefix(st);
      if p <= KeyBytes(k) {
        assert p[0] == StatePrefix()[0] && p[6] == StatePrefix()[6] && p[7] == StatePrefix()[7];
        assert p[13] == StateName(st)[0] as int;
        assert KeyBytes(k)[0] == p[0] && KeyBytes(k)[6] == p[6] && KeyBytes(k)[7] == p[7] && KeyBytes(k)[13] == p[13];
        StateLetter(k.state, k.id);
      }
    }
  }
}
