/** Registers and bits to values and back (`_codec.py`). Integers are packed as
    big-endian bytes, two to a register; the library conversions of floats and text are parameters. */
module ModbusCodec {
  import opened Wrappers
  import opened Bytes
  import opened ModbusModel

  /** One register, or one bit held as 0 or 1. */
  type Word = w: int | 0 <= w < 0x10000

  datatype Value = Flag(on: bool) | Flags(bits: seq<bool>) | Whole(i: int) | Real(r: real) | Text(t: string)

  datatype DeviceInfo = DeviceInfo(fields: seq<Field>, byteOrder: Order, wordOrder: Order)
  {
    function WordOrderOf(f: Field): Order { if f.wordOrder.Some? then f.wordOrder.value else wordOrder }

    function ByteOrderOf(f: Field): Order { if f.byteOrder.Some? then f.byteOrder.value else byteOrder }
  }

  /** The conversions the library does for types other than integers. */
  datatype Library = Library(
    floatOf: (DataType, Order, seq<Word>) -> real,
    wordsOfFloat: (DataType, Order, real) -> seq<Word>,
    textOf: (Order, seq<Word>) -> string,
    wordsOfText: (Order, string) -> seq<Word>)

  datatype CodecError =
    | TooFewValues(field: Field) | ReadOnlyArea(field: Field) | NotText(field: Field) | NotANumber(field: Field)
    | OutOfRange(field: Field) | TooManyRegisters(field: Field) | WrongBitCount(field: Field)
    | NotStoredInRegisters(field: Field) | NotCovered(field: Field)

  // ------------------------------------------------------------------
  // Words
  // ------------------------------------------------------------------

  function SwapWord(w: Word): Word { (w % 256) * 256 + w / 256 }

  function SwapBytes(ws: seq<Word>): (r: seq<Word>)
    ensures |r| == |ws|
  {
    if ws == [] then [] else [SwapWord(ws[0])] + SwapBytes(ws[1..])
  }

  lemma SwapWordTwice(w: Word)
    ensures SwapWord(SwapWord(w)) == w
  {}

  lemma {:induction false} SwapTwice(ws: seq<Word>)
    ensures SwapBytes(SwapBytes(ws)) == ws
  {
    if ws != [] {
      SwapTwice(ws[1..]);
      SwapWordTwice(ws[0]);
      hide SwapWord;
      assert SwapBytes(ws)[1..] == SwapBytes(ws[1..]);
      assert ws == [ws[0]] + ws[1..];
    }
  }

  /** Each register holds two bytes, the high one first. */
  function BytesOf(ws: seq<Word>): (bs: seq<Byte>)
    ensures |bs| == 2 * |ws|
  {
    if ws == [] then [] else [ws[0] / 256, ws[0] % 256] + BytesOf(ws[1..])
  }

  function WordsOf(bs: seq<Byte>): (ws: seq<Word>)
    requires |bs| % 2 == 0
    ensures |ws| == |bs| / 2
  {
    if bs == [] then [] else [bs[0] as int * 256 + bs[1] as int] + WordsOf(bs[2..])
  }

  function Radix(n: nat): (r: nat)
    ensures r > 0
  {
    Power(2 * n)
  }

  function FromWords(ws: seq<Word>): (v: nat)
    ensures v < Radix(|ws|)
  {
    Unpack(BytesOf(ws))
  }

  function ToWords(v: nat, n: nat): (ws: seq<Word>)
    ensures |ws| == n
  {
    WordsOf(Pack(v, 2 * n))
  }

  lemma {:induction false} WordsThenBytes(bs: seq<Byte>)
    requires |bs| % 2 == 0
    ensures BytesOf(WordsOf(bs)) == bs
  {
    if bs != [] {
      WordsThenBytes(bs[2..]);
      var ws := WordsOf(bs);
      assert ws[1..] == WordsOf(bs[2..]);
      assert ws[0] / 256 == bs[0] && ws[0] % 256 == bs[1];
      assert bs == [bs[0], bs[1]] + bs[2..];
    }
  }

  lemma {:induction false} BytesThenWords(ws: seq<Word>)
    ensures WordsOf(BytesOf(ws)) == ws
  {
    if ws != [] {
      BytesThenWords(ws[1..]);
      var bs := BytesOf(ws);
      assert bs[2..] == BytesOf(ws[1..]);
      assert bs[0] as int * 256 + bs[1] as int == ws[0];
      assert ws == [ws[0]] + ws[1..];
    }
  }

  lemma ToThenFrom(v: nat, n: nat)
    requires v < Radix(n)
    ensures FromWords(ToWords(v, n)) == v
  {
    hide Power, Pack, Unpack, WordsOf, BytesOf;
    WordsThenBytes(Pack(v, 2 * n));
    PackThenUnpack(v, 2 * n);
  }

  lemma FromThenTo(ws: seq<Word>)
    ensures ToWords(FromWords(ws), |ws|) == ws
  {
    hide Power, Pack, Unpack, WordsOf, BytesOf;
    UnpackThenPack(BytesOf(ws));
    BytesThenWords(ws);
  }

  function Reverse(ws: seq<Word>): (r: seq<Word>)
    ensures |r| == |ws|
  {
    if ws == [] then [] else Reverse(ws[1..]) + [ws[0]]
  }

  lemma {:induction false} ReverseSnoc(ws: seq<Word>, w: Word)
    ensures Reverse(ws + [w]) == [w] + Reverse(ws)
  {
    if ws != [] {
      ReverseSnoc(ws[1..], w);
      assert (ws + [w])[1..] == ws[1..] + [w];
    }
  }

  lemma {:induction false} ReverseTwice(ws: seq<Word>)
    ensures Reverse(Reverse(ws)) == ws
  {
    if ws != [] {
      ReverseTwice(ws[1..]);
      ReverseSnoc(Reverse(ws[1..]), ws[0]);
      assert ws == [ws[0]] + ws[1..];
    }
  }

  function InWordOrder(order: Order, ws: seq<Word>): (r: seq<Word>)
    ensures |r| == |ws|
  {
    if order == LittleEndian then Reverse(ws) else ws
  }

  function InByteOrder(order: Order, ws: seq<Word>): (r: seq<Word>)
    ensures |r| == |ws|
  {
    if order == LittleEndian then SwapBytes(ws) else ws
  }

  // ------------------------------------------------------------------
  // Integers of a declared type
  // ------------------------------------------------------------------

  function Lowest(kind: DataType): int { if kind.IsSigned() then -(Radix(kind.Words()) / 2) else 0 }

  predicate InRange(kind: DataType, v: int) { Lowest(kind) <= v < Lowest(kind) + Radix(kind.Words()) }

  /** Two's complement. */
  function ToUnsigned(kind: DataType, v: int): nat
    requires InRange(kind, v)
  {
    if v < 0 then v + Radix(kind.Words()) else v
  }

  function FromUnsigned(kind: DataType, u: nat): int
  {
    if kind.IsSigned() && u >= Radix(kind.Words()) / 2 then u - Radix(kind.Words()) else u
  }

  lemma TwosComplement(kind: DataType, v: int, u: nat)
    requires kind.IsInteger() && u < Radix(kind.Words())
    ensures InRange(kind, FromUnsigned(kind, u)) && ToUnsigned(kind, FromUnsigned(kind, u)) == u
    ensures InRange(kind, v) ==> ToUnsigned(kind, v) < Radix(kind.Words()) && FromUnsigned(kind, ToUnsigned(kind, v)) == v
  {
    assert Radix(kind.Words()) == 2 * (Radix(kind.Words()) / 2) by {
      assert Power(2 * kind.Words()) == 256 * Power(2 * kind.Words() - 1);
    }
  }

  function IntegerOf(kind: DataType, order: Order, ws: seq<Word>): int {
    FromUnsigned(kind, FromWords(InWordOrder(order, ws)))
  }

  function WordsOfInteger(kind: DataType, order: Order, v: int): (ws: seq<Word>)
    requires InRange(kind, v)
    ensures |ws| == kind.Words()
  {
    InWordOrder(order, ToWords(ToUnsigned(kind, v), kind.Words()))
  }

  lemma IntegerThenWords(kind: DataType, order: Order, ws: seq<Word>)
    requires kind.IsInteger() && |ws| == kind.Words()
    ensures InRange(kind, IntegerOf(kind, order, ws))
    ensures WordsOfInteger(kind, order, IntegerOf(kind, order, ws)) == ws
  {
    hide Radix, FromWords, ToWords, FromUnsigned, ToUnsigned, InRange;
    var big := InWordOrder(order, ws);
    TwosComplement(kind, 0, FromWords(big));
    FromThenTo(big);
    ReverseTwice(ws);
  }

  lemma WordsThenInteger(kind: DataType, order: Order, v: int)
    requires kind.IsInteger() && InRange(kind, v)
    ensures IntegerOf(kind, order, WordsOfInteger(kind, order, v)) == v
  {
    hide Radix, FromWords, ToWords, FromUnsigned, ToUnsigned, InRange;
    TwosComplement(kind, v, 0);
    ToThenFrom(ToUnsigned(kind, v), kind.Words());
    ReverseTwice(ToWords(ToUnsigned(kind, v), kind.Words()));
  }

  // ------------------------------------------------------------------
  // Scale and offset, in exact arithmetic
  // ------------------------------------------------------------------

  /** Python's `round`: to the nearest integer, halves to the even one. */
  function Round(r: real): int {
    var below := r.Floor;
    var rest := r - below as real;
    if rest < 0.5 || (rest == 0.5 && below % 2 == 0) then below else below + 1
  }

  lemma RoundIsNearest(r: real)
    ensures -0.5 <= Round(r) as real - r <= 0.5
  {}

  lemma RoundOfWhole(i: int)
    ensures Round(i as real) == i
  {}

  predicate Scaled(f: Field) { f.scale.Some? || f.offset.Some? }

  function ScaleOf(f: Field): real { if f.scale.Some? then f.scale.value else 1.0 }

  function OffsetOf(f: Field): real { if f.offset.Some? then f.offset.value else 0.0 }

  function ScaleUp(f: Field, x: real): real {
    var scaled := if f.scale.Some? then x * f.scale.value else x;
    if f.offset.Some? then scaled + f.offset.value else scaled
  }

  function ScaleDown(f: Field, x: real): real
    requires f.scale.Some? ==> f.scale.value != 0.0
  {
    var shifted := if f.offset.Some? then x - f.offset.value else x;
    if f.scale.Some? then shifted / f.scale.value else shifted
  }

  lemma ScaleUpIsLinear(f: Field, x: real)
    ensures ScaleUp(f, x) == x * ScaleOf(f) + OffsetOf(f)
  {}

  lemma UpThenDown(f: Field, x: real)
    requires f.scale.Some? ==> f.scale.value != 0.0
    ensures ScaleDown(f, ScaleUp(f, x)) == x
  {
    if f.scale.Some? {
      DivideBack(x, f.scale.value);
      var up := ScaleUp(f, x);
      assert (if f.offset.Some? then up - f.offset.value else up) == x * f.scale.value;
    }
  }

  lemma DownThenUp(f: Field, x: real)
    requires f.scale.Some? ==> f.scale.value != 0.0
    ensures ScaleUp(f, ScaleDown(f, x)) == x
  {
    if f.scale.Some? {
      DivideBack(if f.offset.Some? then x - f.offset.value else x, f.scale.value);
    }
  }

  lemma DivideBack(x: real, s: real)
    requires s != 0.0
    ensures (x * s) / s == x && (x / s) * s == x
  {}

  /** `value * scale + offset`, when the field declares either. */
  function ApplyScale(f: Field, v: Value): Value
    requires v.Whole? || v.Real?
  {
    if !Scaled(f) then v else Real(ScaleUp(f, if v.Whole? then v.i as real else v.r))
  }

  // ------------------------------------------------------------------
  // Decode
  // ------------------------------------------------------------------

  function Bits(ws: seq<Word>): (bs: seq<bool>)
    ensures |bs| == |ws|
  {
    if ws == [] then [] else [ws[0] != 0] + Bits(ws[1..])
  }

  function DecodeBits(f: Field, raw: seq<Word>): Result<Value, CodecError>
    requires WellFormed(f)
  {
    if |raw| < f.WordCount() then Err(TooFewValues(f))
    else
      var bits := Bits(raw[..f.WordCount()]);
      if f.count.Some? && f.count.value > 1 then Ok(Flags(bits)) else Ok(Flag(bits[0]))
  }

  function DecodeField(lib: Library, info: DeviceInfo, f: Field, raw: seq<Word>): Result<Value, CodecError>
    requires WellFormed(f)
  {
    if f.area.IsBit() then DecodeBits(f, raw)
    else if |raw| < f.WordCount() then Err(TooFewValues(f))
    else
      var registers := InByteOrder(info.ByteOrderOf(f), raw[..f.WordCount()]);
      var order := info.WordOrderOf(f);
      if f.kind == String then Ok(Text(lib.textOf(order, registers)))
      else if f.kind.IsInteger() then Ok(ApplyScale(f, Whole(IntegerOf(f.kind, order, registers))))
      else Ok(ApplyScale(f, Real(lib.floatOf(f.kind, order, registers))))
  }

  // ------------------------------------------------------------------
  // Encode
  // ------------------------------------------------------------------

  /** Python's truth of a value given for a single bit. */
  predicate Truthy(v: Value) {
    match v
    case Flag(b) => b
    case Flags(bs) => bs != []
    case Whole(i) => i != 0
    case Real(r) => r != 0.0
    case Text(t) => t != []
  }

  function BitWords(bs: seq<bool>): (ws: seq<Word>)
    ensures |ws| == |bs|
  {
    if bs == [] then [] else [if bs[0] then 1 else 0] + BitWords(bs[1..])
  }

  function EncodeBits(f: Field, v: Value): Result<seq<Word>, CodecError> {
    var bits := if v.Flags? then v.bits else [Truthy(v)];
    if |bits| != f.WordCount() then Err(WrongBitCount(f)) else Ok(BitWords(bits))
  }

  function AsNumber(f: Field, v: Value): Result<real, CodecError> {
    match v
    case Flag(b) => Ok(if b then 1.0 else 0.0)
    case Whole(i) => Ok(i as real)
    case Real(r) => Ok(r)
    case Flags(_) | Text(_) => Err(NotANumber(f))
  }

  /** The registers of a number before byte swapping. */
  function NumberRegisters(lib: Library, info: DeviceInfo, f: Field, v: Value): Result<seq<Word>, CodecError>
    requires f.scale.Some? ==> f.scale.value != 0.0
  {
    var x :- AsNumber(f, v);
    var raw := if Scaled(f) then ScaleDown(f, x) else x;
    if f.kind.IsInteger() then
      if InRange(f.kind, Round(raw)) then Ok(WordsOfInteger(f.kind, info.WordOrderOf(f), Round(raw)))
      else Err(OutOfRange(f))
    else if f.kind == Bool then Err(NotStoredInRegisters(f))
    else Ok(lib.wordsOfFloat(f.kind, info.WordOrderOf(f), raw))
  }

  function Registers(lib: Library, info: DeviceInfo, f: Field, v: Value): Result<seq<Word>, CodecError>
    requires f.scale.Some? ==> f.scale.value != 0.0
  {
    if f.kind == String then
      if v.Text? then Ok(lib.wordsOfText(info.WordOrderOf(f), v.t)) else Err(NotText(f))
    else NumberRegisters(lib, info, f, v)
  }

  function Zeros(n: nat): (ws: seq<Word>)
    ensures |ws| == n
  {
    if n == 0 then [] else [0] + Zeros(n - 1)
  }

  function EncodeField(lib: Library, info: DeviceInfo, f: Field, v: Value,
        allowReadOnly: bool): Result<seq<Word>, CodecError>
    requires WellFormed(f)
  {
    if !f.area.Writable() && !allowReadOnly then Err(ReadOnlyArea(f))
    else if f.area.IsBit() then EncodeBits(f, v)
    else
      var registers :- Registers(lib, info, f, v);
      var ordered := InByteOrder(info.ByteOrderOf(f), registers);
      if |ordered| > f.WordCount() then Err(TooManyRegisters(f))
      else Ok(ordered + Zeros(f.WordCount() - |ordered|))
  }

  // ------------------------------------------------------------------
  // What the codec keeps
  // ------------------------------------------------------------------

  /** An encoded value fills its field exactly, whatever its type. */
  lemma EncodedFillsField(lib: Library, info: DeviceInfo, f: Field, v: Value, allowReadOnly: bool)
    requires WellFormed(f) && EncodeField(lib, info, f, v, allowReadOnly).Ok?
    ensures |EncodeField(lib, info, f, v, allowReadOnly).value| == f.WordCount()
    ensures f.area.Writable() || allowReadOnly
  {}

  lemma ByteOrderTwice(order: Order, ws: seq<Word>)
    ensures InByteOrder(order, InByteOrder(order, ws)) == ws
  {
    SwapTwice(ws);
  }

  /** What an integer field decodes to once encoded: the rounded raw value, scaled
      back. */
  lemma IntegerFieldRoundTrip(lib: Library, info: DeviceInfo, f: Field, v: Value, allowReadOnly: bool)
    requires WellFormed(f) && f.kind.IsInteger() && EncodeField(lib, info, f, v, allowReadOnly).Ok?
    ensures AsNumber(f, v).Ok?
    ensures var raw := Round(if Scaled(f) then ScaleDown(f, AsNumber(f, v).value) else AsNumber(f, v).value);
            InRange(f.kind, raw)
            && DecodeField(lib, info, f, EncodeField(lib, info, f, v, allowReadOnly).value) == Ok(ApplyScale(f, Whole(raw)))
  {
    hide IntegerOf, WordsOfInteger, InRange, Round, ScaleDown, SwapBytes;
    var raw := Round(if Scaled(f) then ScaleDown(f, AsNumber(f, v).value) else AsNumber(f, v).value);
    var words := WordsOfInteger(f.kind, info.WordOrderOf(f), raw);
    WordsThenInteger(f.kind, info.WordOrderOf(f), raw);
    ByteOrderTwice(info.ByteOrderOf(f), words);
    var ordered := InByteOrder(info.ByteOrderOf(f), words);
    assert ordered + Zeros(0) == ordered;
    assert EncodeField(lib, info, f, v, allowReadOnly).value == ordered;
    assert ordered[..f.WordCount()] == ordered;
  }

  /** An unscaled integer comes back as written, whatever the byte and word order. */
  lemma UnscaledIntegerComesBack(lib: Library, info: DeviceInfo, f: Field, i: int)
    requires WellFormed(f) && f.kind.IsInteger() && !Scaled(f) && f.area.Writable()
    ensures EncodeField(lib, info, f, Whole(i), false).Ok? <==> InRange(f.kind, i)
    ensures InRange(f.kind, i) ==>
              DecodeField(lib, info, f, EncodeField(lib, info, f, Whole(i), false).value) == Ok(Whole(i))
  {
    hide IntegerOf, WordsOfInteger, InRange, Round, SwapBytes, DecodeField;
    RoundOfWhole(i);
    assert AsNumber(f, Whole(i)) == Ok(i as real);
    if InRange(f.kind, i) {
      IntegerFieldRoundTrip(lib, info, f, Whole(i), false);
    }
  }

  function Abs(x: real): real { if x < 0.0 then -x else x }

  lemma ScaledDistance(f: Field, x: real, y: real)
    requires -0.5 <= x - y <= 0.5
    ensures Abs(ScaleUp(f, x) - ScaleUp(f, y)) <= Abs(ScaleOf(f)) / 2.0
  {
    hide ScaleUp, Abs, ScaleOf;
    ScaleUpIsLinear(f, x);
    ScaleUpIsLinear(f, y);
    Distribute(x, y, ScaleOf(f));
    HalfStep(x - y, ScaleOf(f), ScaleUp(f, x) - ScaleUp(f, y));
  }

  lemma Distribute(a: real, b: real, s: real)
    ensures (a - b) * s == a * s - b * s
  {}

  lemma NonNegative(a: real, b: real)
    requires a >= 0.0 && b >= 0.0
    ensures a * b >= 0.0
  {}

  lemma HalfStep(d: real, s: real, step: real)
    requires -0.5 <= d <= 0.5 && step == d * s
    ensures Abs(step) <= Abs(s) / 2.0
  {
    var size := Abs(s);
    NonNegative(0.5 - d, size);
    NonNegative(d + 0.5, size);
    Distribute(0.5, d, size);
    Distribute(d, -0.5, size);
    assert step == if s < 0.0 then -(d * size) else d * size;
  }

  /** A number written to a scaled integer field is read back within half a step
      of the scale: the value is rounded, not cut off. */
  lemma ScaledIntegerIsNearest(lib: Library, info: DeviceInfo, f: Field, x: real)
    requires WellFormed(f) && f.kind.IsInteger() && Scaled(f) && EncodeField(lib, info, f, Real(x), false).Ok?
    ensures var back := DecodeField(lib, info, f, EncodeField(lib, info, f, Real(x), false).value);
            back.Ok? && back.value.Real? && Abs(back.value.r - x) <= Abs(ScaleOf(f)) / 2.0
  {
    hide IntegerOf, WordsOfInteger, InRange, Round, SwapBytes, DecodeField, EncodeField, ScaleDown, ScaleUp;
    IntegerFieldRoundTrip(lib, info, f, Real(x), false);
    var raw := ScaleDown(f, x);
    RoundIsNearest(raw);
    DownThenUp(f, x);
    ScaledDistance(f, Round(raw) as real, raw);
  }

  /** Writing back what was read leaves the registers as they were. */
  lemma IntegerWriteBack(lib: Library, info: DeviceInfo, f: Field, ws: seq<Word>)
    requires WellFormed(f) && f.kind.IsInteger() && |ws| == f.WordCount()
    ensures DecodeField(lib, info, f, ws).Ok?
    ensures EncodeField(lib, info, f, DecodeField(lib, info, f, ws).value, true) == Ok(ws)
  {
    hide IntegerOf, WordsOfInteger, InRange, Round, SwapBytes, ScaleDown, ScaleUp;
    assert ws[..f.WordCount()] == ws;
    var registers := InByteOrder(info.ByteOrderOf(f), ws);
    var i := IntegerOf(f.kind, info.WordOrderOf(f), registers);
    IntegerThenWords(f.kind, info.WordOrderOf(f), registers);
    ByteOrderTwice(info.ByteOrderOf(f), ws);
    UpThenDown(f, i as real);
    RoundOfWhole(i);
    assert ws + Zeros(0) == ws;
  }

  predicate AllBits(ws: seq<Word>) { forall i :: 0 <= i < |ws| ==> ws[i] <= 1 }

  lemma {:induction false} BitsThenWords(ws: seq<Word>)
    requires AllBits(ws)
    ensures BitWords(Bits(ws)) == ws
  {
    if ws != [] {
      BitsThenWords(ws[1..]);
      assert ws[0] == 0 || ws[0] == 1;
      hide AllBits;
      assert Bits(ws)[0] == (ws[0] != 0) && Bits(ws)[1..] == Bits(ws[1..]);
      assert BitWords(Bits(ws)) == [ws[0]] + BitWords(Bits(ws[1..]));
      assert ws == [ws[0]] + ws[1..];
    }
  }

  lemma {:induction false} WordsThenBits(bs: seq<bool>)
    ensures Bits(BitWords(bs)) == bs && AllBits(BitWords(bs))
  {
    if bs != [] {
      WordsThenBits(bs[1..]);
      assert BitWords(bs)[1..] == BitWords(bs[1..]);
      assert bs == [bs[0]] + bs[1..];
    }
  }

  /** The value a bit field is given in the shape it is read in. */
  predicate BitShape(f: Field, v: Value) {
    if f.count.Some? && f.count.value > 1 then v.Flags? && |v.bits| == f.WordCount() else v.Flag?
  }

  lemma BitFieldComesBack(lib: Library, info: DeviceInfo, f: Field, v: Value)
    requires WellFormed(f) && f.area == Coil && BitShape(f, v)
    ensures EncodeField(lib, info, f, v, false).Ok?
    ensures DecodeField(lib, info, f, EncodeField(lib, info, f, v, false).value) == Ok(v)
  {
    var bits := if v.Flags? then v.bits else [v.on];
    WordsThenBits(bits);
    assert BitWords(bits)[..f.WordCount()] == BitWords(bits);
  }

  lemma BitWriteBack(lib: Library, info: DeviceInfo, f: Field, ws: seq<Word>)
    requires WellFormed(f) && f.area.IsBit() && |ws| == f.WordCount() && AllBits(ws)
    ensures DecodeField(lib, info, f, ws).Ok?
    ensures EncodeField(lib, info, f, DecodeField(lib, info, f, ws).value, true) == Ok(ws)
  {
    assert ws[..f.WordCount()] == ws;
    BitsThenWords(ws);
    assert f.WordCount() == 1 ==> [Bits(ws)[0]] == Bits(ws);
  }
}
