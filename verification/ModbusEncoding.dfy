/**
 From values to 16-bit register words and back: `encode_value` with its six data
 types and four byte orders. Integers are exact; the IEEE bit patterns of floats
 are opaque byte strings that travel with the value.
 */
module ModbusEncoding {
  import opened Prelude
  import opened Registers

  type Byte = b: int | 0 <= b < 256
  type Word = w: int | 0 <= w < 0x1_0000

  type Bytes4 = s: seq<Byte> | |s| == 4 witness [0, 0, 0, 0]
  type Bytes8 = s: seq<Byte> | |s| == 8 witness [0, 0, 0, 0, 0, 0, 0, 0]

  /**
   A Python float: its number (none for NaN and the infinities), and its big-endian
   IEEE encodings. A finite float too large for single precision has no single one.
   */
  datatype Sample = Sample(number: Option<real>, single: Option<Bytes4>, double: Bytes8)

  datatype EncodeError = NotFinite | OutOfRange | UnsupportedType | UnsupportedOrder

  function Whole(v: Sample): Result<int, EncodeError> {
    if v.number.Some? then Ok(Truncate(v.number.value)) else Err(NotFinite)
  }

  // --- Bytes of integers ---

  function Pow256(k: nat): (n: nat)
    ensures n > 0
  {
    if k == 0 then 1 else 256 * Pow256(k - 1)
  }

  /** The k low bytes of n, most significant first. */
  function BytesOf(n: nat, k: nat): (bytes: seq<Byte>)
    ensures |bytes| == k
  {
    if k == 0 then [] else BytesOf(n / 256, k - 1) + [n % 256]
  }

  function NatOf(bytes: seq<Byte>): nat {
    if bytes == [] then 0 else NatOf(bytes[..|bytes| - 1]) * 256 + bytes[|bytes| - 1]
  }

  lemma {:induction false} NatOfBytes(n: nat, k: nat)
    requires n < Pow256(k)
    ensures NatOf(BytesOf(n, k)) == n
  {
    if k > 0 {
      assert n / 256 < Pow256(k - 1);
      NatOfBytes(n / 256, k - 1);
      assert BytesOf(n, k)[..k - 1] == BytesOf(n / 256, k - 1);
    }
  }

  /** Two's complement: n modulo 2^(8k), read back as a signed number. */
  function Signed(n: nat, k: nat): int {
    if 2 * n < Pow256(k) then n else n - Pow256(k)
  }

  predicate FitsSigned(n: int, k: nat) {
    0 - Pow256(k) <= 2 * n < Pow256(k)
  }

  function Unsigned(n: int, k: nat): (m: nat)
    requires FitsSigned(n, k)
    ensures m < Pow256(k) && Signed(m, k) == n
  {
    if n < 0 then n + Pow256(k) else n
  }

  lemma PowersOf256()
    ensures Pow256(2) == 0x1_0000 && Pow256(4) == 0x1_0000_0000
  {
    assert Pow256(1) == 256 && Pow256(2) == 256 * Pow256(1) && Pow256(3) == 256 * Pow256(2);
  }

  // --- Words and their orders ---

  function Join(hi: Byte, lo: Byte): Word { hi * 256 + lo }

  function WordsOf(raw: seq<Byte>): (words: seq<Word>)
    ensures |words| == |raw| / 2
  {
    seq(|raw| / 2, (i: nat) requires i < |raw| / 2 => Join(raw[2 * i], raw[2 * i + 1]))
  }

  function BytesOfWords(words: seq<Word>): (raw: seq<Byte>)
    ensures |raw| == 2 * |words|
  {
    seq(2 * |words|, (i: nat) requires i < 2 * |words| =>
      if i % 2 == 0 then words[i / 2] / 256 else words[i / 2] % 256)
  }

  function SwapBytes(w: Word): Word { Join(w % 256, w / 256) }

  function Swapped(words: seq<Word>): (r: seq<Word>)
    ensures |r| == |words|
  {
    seq(|words|, (i: nat) requires i < |words| => SwapBytes(words[i]))
  }

  function Reversed<T>(s: seq<T>): (r: seq<T>)
    ensures |r| == |s|
  {
    seq(|s|, (i: nat) requires i < |s| => s[|s| - 1 - i])
  }

  /** ABCD, DCBA, BADC and CDAB, in the source's naming. */
  function Arrange(words: seq<Word>, order: ByteOrder): Result<seq<Word>, EncodeError> {
    match order
    case BigEndian => Ok(words)
    case LittleEndian => Ok(Reversed(Swapped(words)))
    case BigEndianWordSwap => Ok(Swapped(words))
    case LittleEndianWordSwap => Ok(Reversed(words))
    case OtherOrder(_) => Err(UnsupportedOrder)
  }

  lemma BytesOfJoin(hi: Byte, lo: Byte)
    ensures Join(hi, lo) / 256 == hi && Join(hi, lo) % 256 == lo
  {
  }

  lemma JoinOfBytes(w: Word)
    ensures 0 <= w / 256 < 256 && Join(w / 256, w % 256) == w
  {
  }

  /** The bytes of a swapped word are its own, the other way round. */
  lemma SwappedBytes(w: Word)
    ensures SwapBytes(w) / 256 == w % 256 && SwapBytes(w) % 256 == w / 256
  {
    BytesOfJoin(w % 256, w / 256);
  }

  lemma SwapBytesTwice(w: Word)
    ensures SwapBytes(SwapBytes(w)) == w
  {
    SwappedBytes(w);
    JoinOfBytes(w);
  }

  /** Each byte order is its own inverse. */
  lemma ArrangeInvolution(words: seq<Word>, order: ByteOrder)
    requires !order.OtherOrder?
    ensures Arrange(Arrange(words, order).value, order).value == words
  {
    forall i | 0 <= i < |words|
      ensures SwapBytes(SwapBytes(words[i])) == words[i]
    {
      SwapBytesTwice(words[i]);
    }
    var twice := Arrange(Arrange(words, order).value, order).value;
    assert forall i :: 0 <= i < |words| ==> twice[i] == words[i];
  }

  /** little_endian is the byte string reversed as a whole. */
  lemma LittleEndianReversesBytes(words: seq<Word>)
    ensures BytesOfWords(Arrange(words, LittleEndian).value) == Reversed(BytesOfWords(words))
  {
    var n := |words|;
    var left, right := BytesOfWords(Arrange(words, LittleEndian).value), Reversed(BytesOfWords(words));
    forall i: nat | i < 2 * n
      ensures left[i] == right[i]
    {
      LittleEndianByte(words, i);
    }
  }

  lemma LittleEndianByte(words: seq<Word>, i: nat)
    requires i < 2 * |words|
    ensures BytesOfWords(Arrange(words, LittleEndian).value)[i] == BytesOfWords(words)[2 * |words| - 1 - i]
  {
    var n, k := |words|, i / 2;
    assert (2 * n - 1 - i) / 2 == n - 1 - k && (2 * n - 1 - i) % 2 == 1 - i % 2;
    assert Arrange(words, LittleEndian).value[k] == SwapBytes(words[n - 1 - k]);
    SwappedBytes(words[n - 1 - k]);
  }

  /** little_endian is both swaps, one after the other in either order. */
  lemma LittleEndianIsBothSwaps(words: seq<Word>)
    ensures Arrange(words, LittleEndian)
         == Arrange(Arrange(words, BigEndianWordSwap).value, LittleEndianWordSwap)
         == Arrange(Arrange(words, LittleEndianWordSwap).value, BigEndianWordSwap)
  {
    assert Reversed(Swapped(words)) == Swapped(Reversed(words));
  }

  // --- Encoding ---

  /** The `struct.pack` step of the multi-word types. */
  function Packed(v: Sample, dataType: DataType): (r: Result<seq<Byte>, EncodeError>)
    ensures r.Ok? ==> |r.value| == 2 * WordCount(dataType) && WordCount(dataType) > 1
  {
    match dataType
    case Int32 =>
      var n :- Whole(v);
      if FitsSigned(n, 4) then Ok(BytesOf(Unsigned(n, 4), 4)) else Err(OutOfRange)
    case UInt32 =>
      var n :- Whole(v);
      if 0 <= n < Pow256(4) then Ok(BytesOf(n, 4)) else Err(OutOfRange)
    case Float32 => if v.single.Some? then Ok(v.single.value) else Err(OutOfRange)
    case Float64 => Ok(v.double)
    case _ => Err(UnsupportedType)
  }

  /** 16-bit types ignore the byte order; an unsigned one wraps instead of failing. */
  function Encoded(v: Sample, dataType: DataType, order: ByteOrder): (r: Result<seq<Word>, EncodeError>)
    ensures r.Ok? ==> |r.value| == WordCount(dataType) && !dataType.OtherType?
  {
    match dataType
    case Int16 =>
      var n :- Whole(v);
      PowersOf256();
      if FitsSigned(n, 2) then Ok([Unsigned(n, 2)]) else Err(OutOfRange)
    case UInt16 =>
      var n :- Whole(v);
      Ok([n % 0x1_0000])
    case _ =>
      var raw :- Packed(v, dataType);
      Arrange(WordsOf(raw), order)
  }

  /** The unpacking loop: two bytes to a word. */
  method UnpackWords(raw: seq<Byte>) returns (words: seq<Word>)
    requires |raw| % 2 == 0
    ensures words == WordsOf(raw)
  {
    words := [];
    var i := 0;
    while i < |raw|
      invariant 0 <= i <= |raw| && i % 2 == 0 && |words| == i / 2
      invariant forall k :: 0 <= k < |words| ==> words[k] == WordsOf(raw)[k]
    {
      words := words + [Join(raw[i], raw[i + 1])];
      i := i + 2;
    }
  }

  method EncodeValue(v: Sample, dataType: DataType, order: ByteOrder) returns (r: Result<seq<Word>, EncodeError>)
    ensures r == Encoded(v, dataType, order)
  {
    if dataType.Int16? {
      var whole :- Whole(v);
      PowersOf256();
      if !FitsSigned(whole, 2) {
        return Err(OutOfRange);
      }
      return Ok([if whole < 0 then whole + 0x1_0000 else whole]);
    }
    if dataType.UInt16? {
      var whole :- Whole(v);
      return Ok([whole % 0x1_0000]);
    }
    var packed := Packed(v, dataType);
    if packed.Err? {
      return Err(packed.error);
    }
    var words := UnpackWords(packed.value);
    match order {
      case BigEndian =>
        return Ok(words);
      case LittleEndian =>
        var swapped := SwapEach(words);
        return Ok(Reversed(swapped));
      case BigEndianWordSwap =>
        var swapped := SwapEach(words);
        return Ok(swapped);
      case LittleEndianWordSwap =>
        return Ok(Reversed(words));
      case OtherOrder(_) =>
        return Err(UnsupportedOrder);
    }
  }

  method SwapEach(words: seq<Word>) returns (swapped: seq<Word>)
    ensures swapped == Swapped(words)
  {
    swapped := [];
    for i := 0 to |words|
      invariant swapped == Swapped(words)[..i]
    {
      swapped := swapped + [SwapBytes(words[i])];
    }
  }

  // --- Decoding, as a Modbus client does it ---

  datatype Decoded = Number(n: int) | SingleBits(bytes: seq<Byte>) | DoubleBits(bytes: seq<Byte>)

  /** Where a client finds the i-th most significant of n bytes among the bytes of the words it reads. */
  function BytePosition(order: ByteOrder, n: nat, i: nat): Result<nat, EncodeError>
    requires n % 2 == 0 && i < n
    ensures BytePosition(order, n, i).Ok? ==> BytePosition(order, n, i).value < n
  {
    match order
    case BigEndian => Ok(i)
    case LittleEndian => Ok(n - 1 - i)
    case BigEndianWordSwap => Ok(if i % 2 == 0 then i + 1 else i - 1)
    case LittleEndianWordSwap => Ok(if i % 2 == 0 then n - 2 - i else n - i)
    case OtherOrder(_) => Err(UnsupportedOrder)
  }

  function DecodedBytes(words: seq<Word>, order: ByteOrder): Result<seq<Byte>, EncodeError> {
    if order.OtherOrder? then Err(UnsupportedOrder)
    else
      var read := BytesOfWords(words);
      Ok(seq(|read|, (i: nat) requires i < |read| => read[BytePosition(order, |read|, i).value]))
  }

  function Decode(words: seq<Word>, dataType: DataType, order: ByteOrder): Result<Decoded, EncodeError>
    requires |words| == WordCount(dataType)
  {
    match dataType
    case Int16 => Ok(Number(Signed(words[0], 2)))
    case UInt16 => Ok(Number(words[0]))
    case Int32 =>
      var raw :- DecodedBytes(words, order);
      Ok(Number(Signed(NatOf(raw), 4)))
    case UInt32 =>
      var raw :- DecodedBytes(words, order);
      Ok(Number(NatOf(raw)))
    case Float32 =>
      var raw :- DecodedBytes(words, order);
      Ok(SingleBits(raw))
    case Float64 =>
      var raw :- DecodedBytes(words, order);
      Ok(DoubleBits(raw))
    case OtherType(_) => Err(UnsupportedType)
  }

  /** What a register of this type can keep of a value. */
  function Kept(v: Sample, dataType: DataType): Result<Decoded, EncodeError> {
    match dataType
    case Int16 | Int32 | UInt32 =>
      var n :- Whole(v);
      Ok(Number(n))
    case UInt16 =>
      var n :- Whole(v);
      Ok(Number(n % 0x1_0000))
    case Float32 => if v.single.Some? then Ok(SingleBits(v.single.value)) else Err(OutOfRange)
    case Float64 => Ok(DoubleBits(v.double))
    case OtherType(_) => Err(UnsupportedType)
  }

  /** Which word of the result holds which two bytes: ABCD, DCBA, BADC and CDAB. */
  lemma ArrangedWord(raw: seq<Byte>, w: nat)
    requires |raw| % 2 == 0 && w < |raw| / 2
    ensures var words, hi: int, lo: int := WordsOf(raw), raw[2 * w], raw[2 * w + 1];
      && Arrange(words, BigEndian).value[w] == hi * 256 + lo
      && Arrange(words, LittleEndian).value[|words| - 1 - w] == lo * 256 + hi
      && Arrange(words, BigEndianWordSwap).value[w] == lo * 256 + hi
      && Arrange(words, LittleEndianWordSwap).value[|words| - 1 - w] == hi * 256 + lo
  {
    BytesOfJoin(raw[2 * w], raw[2 * w + 1]);
  }

  lemma WordBytes(words: seq<Word>, w: nat, hi: Byte, lo: Byte)
    requires w < |words| && words[w] == hi * 256 + lo
    ensures BytesOfWords(words)[2 * w] == hi && BytesOfWords(words)[2 * w + 1] == lo
  {
    assert (2 * w) % 2 == 0 && (2 * w) / 2 == w;
    assert (2 * w + 1) % 2 == 1 && (2 * w + 1) / 2 == w;
    BytesOfJoin(hi, lo);
  }

  lemma PositionsOf(order: ByteOrder, n: nat, w: nat)
    requires w < n && !order.OtherOrder?
    ensures var at, swapped := if order.BigEndian? || order.BigEndianWordSwap? then w else n - 1 - w,
                               order.LittleEndian? || order.BigEndianWordSwap?;
      && BytePosition(order, 2 * n, 2 * w) == Ok(if swapped then 2 * at + 1 else 2 * at)
      && BytePosition(order, 2 * n, 2 * w + 1) == Ok(if swapped then 2 * at else 2 * at + 1)
  {
    assert (2 * w) % 2 == 0 && (2 * w + 1) % 2 == 1;
  }

  /** The two bytes a client looks for are there. */
  lemma ArrangedBytes(raw: seq<Byte>, order: ByteOrder, w: nat)
    requires |raw| % 2 == 0 && !order.OtherOrder? && w < |raw| / 2
    ensures var read := BytesOfWords(Arrange(WordsOf(raw), order).value);
      && read[BytePosition(order, |raw|, 2 * w).value] == raw[2 * w]
      && read[BytePosition(order, |raw|, 2 * w + 1).value] == raw[2 * w + 1]
  {
    ArrangedWord(raw, w);
    PositionsOf(order, |raw| / 2, w);
    var words, hi, lo, v := Arrange(WordsOf(raw), order).value, raw[2 * w], raw[2 * w + 1], |raw| / 2 - 1 - w;
    match order
    case BigEndian => WordBytes(words, w, hi, lo);
    case LittleEndian => WordBytes(words, v, lo, hi);
    case BigEndianWordSwap => WordBytes(words, w, lo, hi);
    case LittleEndianWordSwap => WordBytes(words, v, hi, lo);
  }

  lemma UnarrangedBytes(raw: seq<Byte>, order: ByteOrder)
    requires |raw| % 2 == 0 && !order.OtherOrder?
    ensures DecodedBytes(Arrange(WordsOf(raw), order).value, order) == Ok(raw)
  {
    var arranged := Arrange(WordsOf(raw), order).value;
    var read := DecodedBytes(arranged, order).value;
    assert |read| == 2 * |arranged| == |raw|;
    forall i: nat | i < |raw|
      ensures read[i] == raw[i]
    {
      ArrangedBytes(raw, order, i / 2);
      assert i == 2 * (i / 2) || i == 2 * (i / 2) + 1;
    }
    assert read == raw;
  }

  /** Decoding an encoded value gives back what the type can keep of it. */
  lemma DecodeEncoded(v: Sample, dataType: DataType, order: ByteOrder)
    requires Encoded(v, dataType, order).Ok?
    ensures Decode(Encoded(v, dataType, order).value, dataType, order) == Kept(v, dataType)
  {
    PowersOf256();
    if WordCount(dataType) > 1 {
      var raw := Packed(v, dataType).value;
      UnarrangedBytes(raw, order);
      if dataType.Int32? {
        NatOfBytes(Unsigned(Whole(v).value, 4), 4);
      } else if dataType.UInt32? {
        NatOfBytes(Whole(v).value, 4);
      }
    }
  }

  /** The values a register type accepts without changing them. */
  predicate InRange(v: Sample, dataType: DataType) {
    match dataType
    case Int16 => v.number.Some? && -0x8000 <= Truncate(v.number.value) < 0x8000
    case UInt16 => v.number.Some? && 0 <= Truncate(v.number.value) < 0x1_0000
    case Int32 => v.number.Some? && -0x8000_0000 <= Truncate(v.number.value) < 0x8000_0000
    case UInt32 => v.number.Some? && 0 <= Truncate(v.number.value) < 0x1_0000_0000
    case Float32 => v.single.Some?
    case Float64 => true
    case OtherType(_) => false
  }

  /** In range, the round trip is exact: the truncated number, or the very bits. */
  lemma InRangeRoundTrip(v: Sample, dataType: DataType, order: ByteOrder)
    requires InRange(v, dataType) && !order.OtherOrder?
    ensures Encoded(v, dataType, order).Ok?
    ensures Decode(Encoded(v, dataType, order).value, dataType, order) == Ok(
      if dataType.Float32? then SingleBits(v.single.value)
      else if dataType.Float64? then DoubleBits(v.double)
      else Number(Truncate(v.number.value)))
  {
    PowersOf256();
    DecodeEncoded(v, dataType, order);
  }
}
