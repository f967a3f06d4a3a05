/** What the encoder sends, word by word and byte by byte. */
module ModbusBytes {
  import opened Prelude
  import opened Registers
  import opened ModbusEncoding

  lemma TruncateIsTowardsZero(r: real)
    ensures r >= 0.0 ==> Truncate(r) as real <= r < (Truncate(r) + 1) as real
    ensures r < 0.0 ==> (Truncate(r) - 1) as real < r <= Truncate(r) as real
  {
  }

  /** 16-bit types: the signed one refuses what it cannot hold, the unsigned one wraps. */
  lemma SixteenBitWords(v: Sample, order: ByteOrder)
    ensures v.number.None? ==> Encoded(v, Int16, order) == Err(NotFinite) == Encoded(v, UInt16, order)
    ensures v.number.Some? ==>
      var n := Truncate(v.number.value);
      && Encoded(v, UInt16, order) == Ok([n % 65536])
      && Encoded(v, Int16, order) ==
           if -32768 <= n < 0 then Ok([n + 65536]) else if 0 <= n < 32768 then Ok([n]) else Err(OutOfRange)
  {
    PowersOf256();
  }

  /** Which values the other types refuse, and with which error. */
  lemma WideErrors(v: Sample, dataType: DataType, order: ByteOrder)
    requires !dataType.Int16? && !dataType.UInt16?
    ensures Encoded(v, dataType, order).Err? <==> WideError(v, dataType, order).Some?
    ensures Encoded(v, dataType, order).Err? ==>
      Encoded(v, dataType, order).error == WideError(v, dataType, order).value
  {
    PowersOf256();
  }

  function WideError(v: Sample, dataType: DataType, order: ByteOrder): Option<EncodeError> {
    if dataType.OtherType? then Some(UnsupportedType)
    else if (dataType.Int32? || dataType.UInt32?) && v.number.None? then Some(NotFinite)
    else if dataType.Int32? && !(-0x8000_0000 <= Truncate(v.number.value) < 0x8000_0000) then Some(OutOfRange)
    else if dataType.UInt32? && !(0 <= Truncate(v.number.value) < 0x1_0000_0000) then Some(OutOfRange)
    else if dataType.Float32? && v.single.None? then Some(OutOfRange)
    else if order.OtherOrder? then Some(UnsupportedOrder)
    else None
  }

  function Big(a: int, b: int, c: int, d: int): int {
    a * 0x100_0000 + b * 0x1_0000 + c * 0x100 + d
  }

  lemma FourBytes(raw: seq<Byte>)
    requires |raw| == 4
    ensures NatOf(raw) == Big(raw[0], raw[1], raw[2], raw[3])
  {
    var three, two, one := raw[..3], raw[..2], raw[..1];
    assert three[..2] == two && two[..1] == one && one[..0] == [];
    assert NatOf(one) == raw[0];
    assert NatOf(two) == NatOf(one) * 256 + raw[1];
    assert NatOf(three) == NatOf(two) * 256 + raw[2];
    assert NatOf(raw) == NatOf(three) * 256 + raw[3];
  }

  /** The big-endian bytes of a value: two's complement for integers, the IEEE encodings for floats. */
  ghost predicate BigEndianBytes(raw: seq<Byte>, v: Sample, dataType: DataType) {
    match dataType
    case Int32 | UInt32 =>
      && |raw| == 4 && v.number.Some?
      && var n, m := Truncate(v.number.value), Big(raw[0], raw[1], raw[2], raw[3]);
         m == if n < 0 then n + 0x1_0000_0000 else n
    case Float32 => v.single == Some(raw)
    case Float64 => v.double == raw
    case _ => false
  }

  /** Word i of the result, for each order: AB CD as it is, or bytes, or words, or both the other way round. */
  ghost predicate SentAt(words: seq<Word>, raw: seq<Byte>, order: ByteOrder, i: nat)
    requires |raw| == 2 * |words| && i < |words|
  {
    var n := |words|;
    match order
    case BigEndian => words[i] == PairAt(raw, 2 * i, 2 * i + 1)
    case LittleEndian => words[i] == PairAt(raw, 2 * n - 1 - 2 * i, 2 * n - 2 - 2 * i)
    case BigEndianWordSwap => words[i] == PairAt(raw, 2 * i + 1, 2 * i)
    case LittleEndianWordSwap => words[i] == PairAt(raw, 2 * n - 2 - 2 * i, 2 * n - 1 - 2 * i)
    case OtherOrder(_) => false
  }

  ghost predicate SentAs(words: seq<Word>, raw: seq<Byte>, order: ByteOrder) {
    |raw| == 2 * |words| && forall i :: 0 <= i < |words| ==> SentAt(words, raw, order, i)
  }

  function PairAt(raw: seq<Byte>, hi: int, lo: int): int
    requires 0 <= hi < |raw| && 0 <= lo < |raw|
  {
    var h: int, l: int := raw[hi], raw[lo];
    h * 256 + l
  }

  lemma PackedBytes(v: Sample, dataType: DataType)
    requires Packed(v, dataType).Ok?
    ensures BigEndianBytes(Packed(v, dataType).value, v, dataType)
  {
    PowersOf256();
    var raw := Packed(v, dataType).value;
    if dataType.Int32? {
      NatOfBytes(Unsigned(Whole(v).value, 4), 4);
      FourBytes(raw);
    } else if dataType.UInt32? {
      NatOfBytes(Whole(v).value, 4);
      FourBytes(raw);
    }
  }

  lemma StraightSent(raw: seq<Byte>, i: nat)
    requires |raw| % 2 == 0 && i < |raw| / 2
    ensures Arrange(WordsOf(raw), BigEndian).value[i] == PairAt(raw, 2 * i, 2 * i + 1)
    ensures Arrange(WordsOf(raw), BigEndianWordSwap).value[i] == PairAt(raw, 2 * i + 1, 2 * i)
  {
    ArrangedWord(raw, i);
  }

  lemma ReversedSent(raw: seq<Byte>, i: nat)
    requires |raw| % 2 == 0 && i < |raw| / 2
    ensures var n := |raw| / 2;
      && Arrange(WordsOf(raw), LittleEndian).value[i] == PairAt(raw, 2 * n - 1 - 2 * i, 2 * n - 2 - 2 * i)
      && Arrange(WordsOf(raw), LittleEndianWordSwap).value[i] == PairAt(raw, 2 * n - 2 - 2 * i, 2 * n - 1 - 2 * i)
  {
    var w := |raw| / 2 - 1 - i;
    assert |WordsOf(raw)| - 1 - w == i && 2 * w == 2 * (|raw| / 2) - 2 - 2 * i;
    ArrangedWord(raw, w);
  }

  lemma ArrangedSent(raw: seq<Byte>, order: ByteOrder)
    requires |raw| % 2 == 0 && !order.OtherOrder?
    ensures SentAs(Arrange(WordsOf(raw), order).value, raw, order)
  {
    forall i | 0 <= i < |raw| / 2
      ensures SentAt(Arrange(WordsOf(raw), order).value, raw, order, i)
    {
      StraightSent(raw, i);
      ReversedSent(raw, i);
    }
  }

  /** The encoder's words carry the big-endian bytes of the value, in the order's places. */
  lemma WideWords(v: Sample, dataType: DataType, order: ByteOrder) returns (raw: seq<Byte>)
    requires Encoded(v, dataType, order).Ok? && !dataType.Int16? && !dataType.UInt16?
    ensures BigEndianBytes(raw, v, dataType) && SentAs(Encoded(v, dataType, order).value, raw, order)
  {
    raw := Packed(v, dataType).value;
    PackedBytes(v, dataType);
    ArrangedSent(raw, order);
  }

  /** 0x01020304 in the four orders. */
  lemma FourOrders(v: Sample)
    requires v.number == Some(16909060.0)
    ensures Encoded(v, UInt32, BigEndian) == Ok([0x0102, 0x0304])
    ensures Encoded(v, UInt32, LittleEndian) == Ok([0x0403, 0x0201])
    ensures Encoded(v, UInt32, BigEndianWordSwap) == Ok([0x0201, 0x0403])
    ensures Encoded(v, UInt32, LittleEndianWordSwap) == Ok([0x0304, 0x0102])
  {
    forall order: ByteOrder | !order.OtherOrder?
      ensures Encoded(v, UInt32, order) == Ok(ExampleWords(order))
    {
      WideErrors(v, UInt32, order);
      var raw := WideWords(v, UInt32, order);
      ExampleSent(raw, Encoded(v, UInt32, order).value, order);
    }
  }

  function ExampleWords(order: ByteOrder): seq<Word>
    requires !order.OtherOrder?
  {
    match order
    case BigEndian => [0x0102, 0x0304]
    case LittleEndian => [0x0403, 0x0201]
    case BigEndianWordSwap => [0x0201, 0x0403]
    case LittleEndianWordSwap => [0x0304, 0x0102]
  }

  lemma ExampleSent(raw: seq<Byte>, words: seq<Word>, order: ByteOrder)
    requires |raw| == 4 && Big(raw[0], raw[1], raw[2], raw[3]) == 16909060
    requires !order.OtherOrder? && SentAs(words, raw, order)
    ensures words == ExampleWords(order)
  {
    assert raw[0] == 1 && raw[1] == 2 && raw[2] == 3 && raw[3] == 4;
    assert |words| == 2 && SentAt(words, raw, order, 0) && SentAt(words, raw, order, 1);
    match order
    case BigEndian =>
    case LittleEndian =>
    case BigEndianWordSwap =>
    case LittleEndianWordSwap =>
  }
}
