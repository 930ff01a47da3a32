/**
 A printer for GGUF headers, and the round trip: the walk of `Gguf` gives back the parts of
 every printed header, whatever bytes follow it.
 */
module GgufRoundTrip {
  import opened Results
  import opened Bits
  import opened Gguf

  // ----- The printer ----------------------------------------------------------
  // Every printer takes the bytes that follow what it prints.

  /** The value types of one fixed width, with their codes in a file. */
  datatype Primitive =
    Uint8 | Int8 | Uint16 | Int16 | Uint32 | Int32 | Float32 | Bool | Uint64 | Int64 | Float64
  {
    function Code(): nat {
      match this
      case Uint8 => 0
      case Int8 => 1
      case Uint16 => 2
      case Int16 => 3
      case Uint32 => 4
      case Int32 => 5
      case Float32 => 6
      case Bool => 7
      case Uint64 => 10
      case Int64 => 11
      case Float64 => 12
    }

    function Width(): nat {
      match this
      case Uint16 => 2
      case Int16 => 2
      case Uint32 => 4
      case Int32 => 4
      case Float32 => 4
      case Uint64 => 8
      case Int64 => 8
      case Float64 => 8
      case _ => 1
    }
  }

  /** The tensor types that can be measured, with their codes in a file. */
  datatype TensorType =
    | F32 | F16 | Q4_0 | Q4_1 | Q5_0 | Q5_1 | Q8_0 | Q2_K | Q3_K | Q4_K | Q5_K | Q6_K
    | I8 | I16 | I32 | I64 | F64 | BF16
  {
    function Code(): nat {
      match this
      case F32 => 0
      case F16 => 1
      case Q4_0 => 2
      case Q4_1 => 3
      case Q5_0 => 6
      case Q5_1 => 7
      case Q8_0 => 8
      case Q2_K => 10
      case Q3_K => 11
      case Q4_K => 12
      case Q5_K => 13
      case Q6_K => 14
      case I8 => 24
      case I16 => 25
      case I32 => 26
      case I64 => 27
      case F64 => 28
      case BF16 => 30
    }

    /** How many elements make a block. */
    function Elements(): nat {
      if Q2_K? || Q3_K? || Q4_K? || Q5_K? || Q6_K? then 256
      else if Q4_0? || Q4_1? || Q5_0? || Q5_1? || Q8_0? then 32
      else 1
    }

    /** The bits of each element. */
    function Bits(): nat {
      match this
      case Q2_K => 2
      case Q3_K => 3
      case Q4_0 => 4
      case Q4_1 => 4
      case Q4_K => 4
      case Q5_0 => 5
      case Q5_1 => 5
      case Q5_K => 5
      case Q6_K => 6
      case Q8_0 => 8
      case I8 => 8
      case F16 => 16
      case BF16 => 16
      case I16 => 16
      case F32 => 32
      case I32 => 32
      case _ => 64
    }

    /** The bytes of scales and minima that stand with the elements of a block. */
    function Scales(): nat {
      match this
      case Q4_0 => 2
      case Q4_1 => 4
      case Q5_0 => 2
      case Q5_1 => 4
      case Q8_0 => 2
      case Q2_K => 20
      case Q3_K => 14
      case Q4_K => 16
      case Q5_K => 16
      case Q6_K => 18
      case _ => 0
    }

    function Bytes(): nat { Scales() + Elements() * Bits() / 8 }
  }

  datatype Field =
    | ScalarField(primitive: Primitive, raw: Bytes)
    | TextField(text: Bytes)
    | ScalarArray(primitive: Primitive, count: nat, raw: Bytes)
    | TextArray(texts: seq<Bytes>)

  datatype Key = Key(name: Bytes, field: Field)

  datatype Tensor = Tensor(name: Bytes, dims: seq<nat>, elem: TensorType, offset: nat)

  /** The parts of a header: its version, its keys in order and its tensor table. */
  datatype Header = Header(version: nat, keys: seq<Key>, tensors: seq<Tensor>)

  const U32_MAX: nat := 0xFFFF_FFFF

  function Encode(n: nat, width: nat): (bs: Bytes)
    ensures |bs| == width
  {
    if width == 0 then [] else [n % 256] + Encode(n / 256, width - 1)
  }

  function PutNumber(n: nat, width: nat, more: Bytes): Bytes {
    Encode(n, width) + more
  }

  function PutChars(bs: Bytes, more: Bytes): Bytes {
    PutNumber(|bs|, 8, bs + more)
  }

  function PutDimension(n: nat, more: Bytes): Bytes {
    PutNumber(n, 8, more)
  }

  function PutAll<A>(put: (A, Bytes) -> Bytes, items: seq<A>, more: Bytes): Bytes {
    if items == [] then more else put(items[0], PutAll(put, items[1..], more))
  }

  function KindOf(f: Field): nat {
    match f
    case ScalarField(primitive, _) => primitive.Code()
    case TextField(_) => 8
    case _ => 9
  }

  function PutField(f: Field, more: Bytes): Bytes {
    match f
    case ScalarField(_, raw) => raw + more
    case TextField(text) => PutChars(text, more)
    case ScalarArray(primitive, count, raw) => PutNumber(primitive.Code(), 4, PutNumber(count, 8, raw + more))
    case TextArray(texts) =>
      PutNumber(8, 4, PutNumber(|texts|, 8, PutAll(PutChars, texts, more)))
  }

  function PutKey(k: Key, more: Bytes): Bytes {
    PutChars(k.name, PutNumber(KindOf(k.field), 4, PutField(k.field, more)))
  }

  function PutShape(t: Tensor, more: Bytes): Bytes {
    PutChars(t.name, PutNumber(|t.dims|, 4, PutAll(PutDimension, t.dims, more)))
  }

  function PutTensor(t: Tensor, more: Bytes): Bytes {
    PutShape(t, PutNumber(t.elem.Code(), 4, PutNumber(t.offset, 8, more)))
  }

  function PutTensors(h: Header, more: Bytes): Bytes {
    PutAll(PutTensor, h.tensors, more)
  }

  function PutKeys(h: Header, more: Bytes): Bytes {
    PutAll(PutKey, h.keys, PutTensors(h, more))
  }

  function PutCounts(h: Header, more: Bytes): Bytes {
    PutNumber(|h.tensors|, 8, PutNumber(|h.keys|, 8, PutKeys(h, more)))
  }

  /** A header's bytes, followed by `more`. */
  function Put(h: Header, more: Bytes): Bytes {
    [0x47, 0x47, 0x55, 0x46] + PutNumber(h.version, 4, PutCounts(h, more))
  }

  function Print(h: Header): Bytes {
    Put(h, [])
  }

  // ----- What the parts mean --------------------------------------------------

  predicate ValidField(f: Field) {
    match f
    case ScalarField(primitive, raw) => |raw| == primitive.Width()
    case TextField(text) => |text| <= U64_MAX
    case ScalarArray(primitive, count, raw) => count <= U64_MAX && |raw| == primitive.Width() * count
    case TextArray(texts) =>
      |texts| <= U64_MAX && forall t :: t in texts ==> |t| <= U64_MAX
  }

  predicate ValidKey(k: Key) {
    |k.name| <= U64_MAX && ValidField(k.field)
  }

  /** How many elements a tensor of these dimensions has. */
  function Count(dims: seq<nat>): nat {
    if dims == [] then 1 else dims[0] * Count(dims[1..])
  }

  /** Where a tensor's data ends: its offset and the bytes of its whole blocks. */
  function EndOf(t: Tensor): nat {
    t.offset + Count(t.dims) / t.elem.Elements() * t.elem.Bytes()
  }

  /** A tensor that fills whole blocks inside a 64-bit file. */
  predicate ValidTensor(t: Tensor) {
    && |t.name| <= 4194304 && 1 <= |t.dims| <= 4
    && (forall n :: n in t.dims ==> n <= U64_MAX)
    && t.offset <= U64_MAX && Count(t.dims) <= U64_MAX && Count(t.dims) % t.elem.Elements() == 0
    && EndOf(t) <= U64_MAX
  }

  predicate Valid(h: Header) {
    && h.version in {2, 3}
    && |h.keys| <= 4096 && (forall k :: k in h.keys ==> ValidKey(k))
    && |h.tensors| <= 65536 && (forall t :: t in h.tensors ==> ValidTensor(t))
  }

  function Each<A, B>(f: A -> B, items: seq<A>): (r: seq<B>)
    ensures |r| == |items|
    ensures forall i :: 0 <= i < |items| ==> r[i] == f(items[i])
  {
    if items == [] then [] else [f(items[0])] + Each(f, items[1..])
  }

  /** Arrays are skipped; every other value comes back. */
  function ValueOf(f: Field, decode: Decoder): Value {
    match f
    case ScalarField(_, raw) => Scalar(raw)
    case TextField(text) => Text(decode(text))
    case _ => Skipped
  }

  function PairOf(k: Key, decode: Decoder): Pair {
    Pair(decode(k.name), KindOf(k.field), ValueOf(k.field, decode))
  }

  function AsPair(decode: Decoder): Key -> Pair {
    k => PairOf(k, decode)
  }

  function TableOf(h: Header, decode: Decoder): Keys {
    Table(Each(AsPair(decode), h.keys))
  }

  function Unsigned(b0: nat, b1: nat, b2: nat, b3: nat): nat {
    b0 + 0x100 * b1 + 0x1_0000 * b2 + 0x100_0000 * b3
  }

  /** The unsigned 32-bit number that the last key of this name carries; 32 for any other or none. */
  function AlignmentOf(keys: seq<Key>, decode: Decoder): nat {
    if keys == [] then 32
    else
      var last := keys[|keys| - 1];
      if decode(last.name) != "general.alignment" then AlignmentOf(keys[..|keys| - 1], decode)
      else if last.field.ScalarField? && last.field.primitive == Uint32 && |last.field.raw| == 4 then
        var raw := last.field.raw;
        Unsigned(raw[0], raw[1], raw[2], raw[3])
      else 32
  }

  // ----- Reading what was printed ---------------------------------------------

  function Pow256(w: nat): nat {
    if w == 0 then 1 else 256 * Pow256(w - 1)
  }

  lemma {:induction false} DecodeEncode(n: nat, width: nat)
    requires n < Pow256(width)
    ensures LittleEndian(Encode(n, width)) == n
  {
    if width > 0 {
      DecodeEncode(n / 256, width - 1);
      assert Encode(n, width)[1..] == Encode(n / 256, width - 1);
    }
  }

  lemma Widths()
    ensures Pow256(4) == U32_MAX + 1 && Pow256(8) == U64_MAX + 1
  {
    assert Pow256(1) == 256 && Pow256(2) == 0x1_0000 && Pow256(3) == 0x100_0000;
    assert Pow256(4) == 0x1_0000_0000 && Pow256(5) == 0x100_0000_0000;
    assert Pow256(6) == 0x1_0000_0000_0000 && Pow256(7) == 0x100_0000_0000_0000;
  }

  lemma NumberOfPut(n: nat, width: nat, more: Bytes)
    requires (width == 4 && n <= U32_MAX) || (width == 8 && n <= U64_MAX)
    ensures Number(PutNumber(n, width, more), width) == Ok((n, more))
  {
    hide Encode, LittleEndian, Pow256;
    Widths();
    DecodeEncode(n, width);
    assert PutNumber(n, width, more)[..width] == Encode(n, width);
    assert PutNumber(n, width, more)[width..] == more;
  }

  lemma TakeOfPut(bs: Bytes, more: Bytes)
    ensures Take(bs + more, |bs|) == Ok((bs, more))
  {
  }

  lemma CharsOfPut(bs: Bytes, more: Bytes)
    requires |bs| <= U64_MAX
    ensures Chars(PutChars(bs, more)) == Ok((bs, more))
  {
    hide PutNumber, Number, Take;
    NumberOfPut(|bs|, 8, bs + more);
    TakeOfPut(bs, more);
  }

  /** A repeated read gives back, in order, what its printer printed. */
  lemma {:induction false} RepeatOfPut<A, T>(read: Bytes -> Read<T>, put: (A, Bytes) -> Bytes, value: A -> T,
                                             items: seq<A>, more: Bytes)
    requires forall a, m: Bytes :: a in items ==> read(put(a, m)) == Ok((value(a), m))
    ensures Repeat(read, PutAll(put, items, more), |items|) == Many(Each(value, items), Ok(more))
  {
    if items != [] {
      assert items[0] in items;
      RepeatOfPut(read, put, value, items[1..], more);
    }
  }

  lemma TextsOfPut(texts: seq<Bytes>, more: Bytes)
    requires forall t :: t in texts ==> |t| <= U64_MAX
    ensures Repeat(Chars, PutAll(PutChars, texts, more), |texts|).end == Ok(more)
  {
    forall t, m: Bytes | t in texts
      ensures Chars(PutChars(t, m)) == Ok((t, m))
    {
      CharsOfPut(t, m);
    }
    RepeatOfPut<Bytes, Bytes>(Chars, PutChars, t => t, texts, more);
  }

  lemma PrimitiveIsScalar(p: Primitive)
    ensures ScalarWidth(p.Code()) == Some(p.Width())
  {
  }

  lemma TypeIsMeasured(t: TensorType)
    ensures Block(t.Code()) == Some((t.Elements(), t.Bytes()))
  {
    hide Block, TensorType.Code, TensorType.Bytes;
    if t.Elements() == 256 {
      LargeBlocks(t);
    } else if t.Elements() == 32 {
      SmallBlocks(t);
    } else {
      PlainTypes(t);
    }
  }

  lemma LargeBlocks(t: TensorType)
    requires t.Q2_K? || t.Q3_K? || t.Q4_K? || t.Q5_K? || t.Q6_K?
    ensures Block(t.Code()) == Some((t.Elements(), t.Bytes()))
  {
  }

  lemma SmallBlocks(t: TensorType)
    requires t.Q4_0? || t.Q4_1? || t.Q5_0? || t.Q5_1? || t.Q8_0?
    ensures Block(t.Code()) == Some((t.Elements(), t.Bytes()))
  {
  }

  lemma PlainTypes(t: TensorType)
    requires t.F32? || t.F16? || t.BF16? || t.F64? || t.I8? || t.I16? || t.I32? || t.I64?
    ensures Block(t.Code()) == Some((t.Elements(), t.Bytes()))
  {
  }

  lemma ArrayOfPut(f: Field, more: Bytes)
    requires ValidField(f) && (f.ScalarArray? || f.TextArray?)
    ensures SkipArray(PutField(f, more)) == Ok(((), more))
  {
    hide PutNumber, Number, Take, Repeat, PutAll, PutChars;
    match f
    case ScalarArray(primitive, count, raw) =>
      PrimitiveIsScalar(primitive);
      NumberOfPut(primitive.Code(), 4, PutNumber(count, 8, raw + more));
      NumberOfPut(count, 8, raw + more);
      TakeOfPut(raw, more);
    case TextArray(texts) =>
      NumberOfPut(8, 4, PutNumber(|texts|, 8, PutAll(PutChars, texts, more)));
      NumberOfPut(|texts|, 8, PutAll(PutChars, texts, more));
      TextsOfPut(texts, more);
  }

  lemma FieldOfPut(f: Field, decode: Decoder, more: Bytes)
    requires ValidField(f)
    ensures ReadValue(PutField(f, more), KindOf(f), decode) == Ok((ValueOf(f, decode), more))
  {
    hide PutNumber, Number, Chars, PutChars, SkipArray, Take;
    match f
    case ScalarField(primitive, raw) =>
      PrimitiveIsScalar(primitive);
      TakeOfPut(raw, more);
    case TextField(text) => CharsOfPut(text, more);
    case _ => ArrayOfPut(f, more);
  }

  lemma KeyOfPut(k: Key, decode: Decoder, more: Bytes)
    requires ValidKey(k)
    ensures ReadPair(PutKey(k, more), decode) == Ok((PairOf(k, decode), more))
  {
    hide PutNumber, Number, Chars, PutChars, PutField, ReadValue, ValidField;
    var rest := PutNumber(KindOf(k.field), 4, PutField(k.field, more));
    CharsOfPut(k.name, rest);
    KindFits(k.field);
    NumberOfPut(KindOf(k.field), 4, PutField(k.field, more));
    FieldOfPut(k.field, decode, more);
  }

  lemma KindFits(f: Field)
    requires ValidField(f)
    ensures KindOf(f) <= U32_MAX
  {
  }

  lemma KeysOfPut(h: Header, decode: Decoder, more: Bytes)
    requires Valid(h)
    ensures Repeat(PairReader(decode), PutKeys(h, more), |h.keys|)
         == Many(Each(AsPair(decode), h.keys), Ok(PutTensors(h, more)))
  {
    hide ReadPair, PutKey, PairOf, Repeat, PutAll, ValidKey, ValidTensor;
    var read := PairReader(decode);
    forall k, m: Bytes | k in h.keys
      ensures read(PutKey(k, m)) == Ok((AsPair(decode)(k), m))
    {
      KeyOfPut(k, decode, m);
    }
    RepeatOfPut(read, PutKey, AsPair(decode), h.keys, PutTensors(h, more));
  }

  lemma DimensionsOfPut(dims: seq<nat>, more: Bytes)
    requires forall n :: n in dims ==> n <= U64_MAX
    ensures Repeat(Dimension, PutAll(PutDimension, dims, more), |dims|) == Many(dims, Ok(more))
  {
    forall n, m: Bytes | n in dims
      ensures Dimension(PutDimension(n, m)) == Ok((n, m))
    {
      NumberOfPut(n, 8, m);
    }
    RepeatOfPut<nat, nat>(Dimension, PutDimension, n => n, dims, more);
    assert Each<nat, nat>(n => n, dims) == dims;
  }

  lemma {:induction false} ProductIsCount(dims: seq<nat>)
    ensures Product(dims) == Count(dims)
  {
    if dims != [] {
      ProductIsCount(dims[1..]);
      FirstFactor(dims);
    }
  }

  lemma {:induction false} FirstFactor(dims: seq<nat>)
    requires dims != []
    ensures Product(dims) == dims[0] * Product(dims[1..])
  {
    var fewer, last := dims[..|dims| - 1], dims[|dims| - 1];
    if |dims| > 1 {
      FirstFactor(fewer);
      assert fewer[1..] == dims[1..][..|dims| - 2];
      Regroup(dims[0], Product(fewer[1..]), last);
    } else {
      assert Product(dims[1..]) == 1 && Product(fewer) == 1;
    }
  }

  lemma Regroup(a: nat, b: nat, c: nat)
    ensures a * b * c == a * (b * c)
  {
  }

  lemma ShapeOfPut(t: Tensor, more: Bytes)
    requires ValidTensor(t)
    ensures TensorShape(PutShape(t, more)) == Ok((Product(t.dims), more))
  {
    hide PutNumber, Number, Take, Repeat, PutAll, Product, Count, EndOf;
    var dims := PutAll(PutDimension, t.dims, more);
    var afterName := PutNumber(|t.dims|, 4, dims);
    NumberOfPut(|t.name|, 8, t.name + afterName);
    TakeOfPut(t.name, afterName);
    NumberOfPut(|t.dims|, 4, dims);
    DimensionsOfPut(t.dims, more);
  }

  lemma MeasureValid(t: Tensor)
    requires ValidTensor(t)
    ensures Measure(Product(t.dims), Block(t.elem.Code()).value, t.offset) == Ok(EndOf(t))
  {
    ProductIsCount(t.dims);
    TypeIsMeasured(t.elem);
    hide Product, Count;
  }

  lemma TensorOfPut(t: Tensor, more: Bytes)
    requires ValidTensor(t)
    ensures TensorEnd(PutTensor(t, more)) == Ok((EndOf(t), more))
  {
    hide PutNumber, Number, PutShape, TensorShape, Measure, EndOf, Block, Product;
    var rest2 := PutNumber(t.offset, 8, more);
    var rest1 := PutNumber(t.elem.Code(), 4, rest2);
    TypeIsMeasured(t.elem);
    ShapeOfPut(t, rest1);
    NumberOfPut(t.elem.Code(), 4, rest2);
    NumberOfPut(t.offset, 8, more);
    MeasureValid(t);
  }

  lemma TensorsOfPut(h: Header, more: Bytes)
    requires Valid(h)
    ensures Repeat(TensorEnd, PutTensors(h, more), |h.tensors|) == Many(Each(EndOf, h.tensors), Ok(more))
  {
    hide TensorEnd, PutTensor, EndOf, Repeat, PutAll, ValidTensor, ValidKey;
    forall t, m: Bytes | t in h.tensors
      ensures TensorEnd(PutTensor(t, m)) == Ok((EndOf(t), m))
    {
      TensorOfPut(t, m);
    }
    RepeatOfPut(TensorEnd, PutTensor, EndOf, h.tensors, more);
  }

  // ----- A header ends where its bytes do -------------------------------------

  lemma {:induction false} PutAllAppend<A>(put: (A, Bytes) -> Bytes, items: seq<A>, a: Bytes, b: Bytes)
    requires forall x, m: Bytes :: x in items ==> put(x, m) + b == put(x, m + b)
    ensures PutAll(put, items, a) + b == PutAll(put, items, a + b)
  {
    if items != [] {
      assert items[0] in items;
      PutAllAppend(put, items[1..], a, b);
    }
  }

  lemma CharsAppend(bs: Bytes, a: Bytes, b: Bytes)
    ensures PutChars(bs, a) + b == PutChars(bs, a + b)
  {
  }

  lemma NumberAppend(n: nat, width: nat, a: Bytes, b: Bytes)
    ensures PutNumber(n, width, a) + b == PutNumber(n, width, a + b)
  {
  }

  lemma FieldAppend(f: Field, a: Bytes, b: Bytes)
    ensures PutField(f, a) + b == PutField(f, a + b)
  {
    hide PutNumber, PutChars, PutAll;
    match f
    case ScalarField(_, raw) =>
      assert raw + a + b == raw + (a + b);
    case TextField(text) =>
      CharsAppend(text, a, b);
    case ScalarArray(primitive, count, raw) =>
      assert raw + a + b == raw + (a + b);
      NumberAppend(count, 8, raw + a, b);
      NumberAppend(primitive.Code(), 4, PutNumber(count, 8, raw + a), b);
    case TextArray(texts) =>
      forall t, m: Bytes ensures PutChars(t, m) + b == PutChars(t, m + b) {
        CharsAppend(t, m, b);
      }
      PutAllAppend(PutChars, texts, a, b);
      NumberAppend(|texts|, 8, PutAll(PutChars, texts, a), b);
      NumberAppend(8, 4, PutNumber(|texts|, 8, PutAll(PutChars, texts, a)), b);
  }

  lemma KeyAppend(k: Key, a: Bytes, b: Bytes)
    ensures PutKey(k, a) + b == PutKey(k, a + b)
  {
    hide PutNumber, PutField, PutChars;
    FieldAppend(k.field, a, b);
    NumberAppend(KindOf(k.field), 4, PutField(k.field, a), b);
    CharsAppend(k.name, PutNumber(KindOf(k.field), 4, PutField(k.field, a)), b);
  }

  lemma TensorAppend(t: Tensor, a: Bytes, b: Bytes)
    ensures PutTensor(t, a) + b == PutTensor(t, a + b)
  {
    hide PutNumber, PutAll, PutChars;
    var place := PutNumber(t.elem.Code(), 4, PutNumber(t.offset, 8, a));
    NumberAppend(t.offset, 8, a, b);
    NumberAppend(t.elem.Code(), 4, PutNumber(t.offset, 8, a), b);
    forall n, m: Bytes ensures PutDimension(n, m) + b == PutDimension(n, m + b) {
      NumberAppend(n, 8, m, b);
    }
    PutAllAppend(PutDimension, t.dims, place, b);
    NumberAppend(|t.dims|, 4, PutAll(PutDimension, t.dims, place), b);
    CharsAppend(t.name, PutNumber(|t.dims|, 4, PutAll(PutDimension, t.dims, place)), b);
  }

  lemma PutKeysAppend(h: Header, a: Bytes, b: Bytes)
    ensures PutTensors(h, a) + b == PutTensors(h, a + b)
    ensures PutKeys(h, a) + b == PutKeys(h, a + b)
  {
    hide PutTensor, PutKey, PutAll;
    forall t, m: Bytes ensures PutTensor(t, m) + b == PutTensor(t, m + b) {
      TensorAppend(t, m, b);
    }
    PutAllAppend(PutTensor, h.tensors, a, b);
    forall k, m: Bytes ensures PutKey(k, m) + b == PutKey(k, m + b) {
      KeyAppend(k, m, b);
    }
    PutAllAppend(PutKey, h.keys, PutTensors(h, a), b);
  }

  lemma PrintThenData(h: Header, data: Bytes)
    ensures Put(h, data) == Print(h) + data
  {
    hide PutTensors, PutKeys, PutNumber;
    var a: Bytes := [];
    assert a + data == data;
    PutKeysAppend(h, a, data);
    NumberAppend(|h.keys|, 8, PutKeys(h, a), data);
    NumberAppend(|h.tensors|, 8, PutNumber(|h.keys|, 8, PutKeys(h, a)), data);
    NumberAppend(h.version, 4, PutCounts(h, a), data);
  }

  // ----- The round trip -------------------------------------------------------

  /** The head of a header of `headerEnd` bytes whose keys and tensors were all read. */
  function ReadHead(head: Head, headerEnd: nat, end: nat): Head {
    if UsableAlignment(head.alignment)
    then head.(dataEnd := Some(AlignUp(headerEnd, head.alignment) + end))
    else head.(problem := Some(Alignment(head.alignment)))
  }

  lemma TensorsParsed(h: Header, head: Head, data: Bytes)
    requires Valid(h) && head.tensorCount == |h.tensors| && |data| <= head.bytesRead
    ensures ParseTensors(head, PutTensors(h, data))
         == ReadHead(head, head.bytesRead - |data|, Largest(Each(EndOf, h.tensors)))
  {
    hide Repeat, TensorEnd, PutTensors, AlignUp, UsableAlignment, Largest, Each, EndOf;
    TensorsOfPut(h, data);
  }

  lemma KeysParsed(h: Header, head: Head, data: Bytes, decode: Decoder)
    requires Valid(h) && head.tensorCount == |h.tensors| && |data| <= head.bytesRead
    ensures ParseKeys(head, PutKeys(h, data), |h.keys|, decode)
         == ReadHead(WithKeys(head, TableOf(h, decode)), head.bytesRead - |data|,
                     Largest(Each(EndOf, h.tensors)))
  {
    hide Repeat, PairReader, PutKeys, PutTensors, ParseTensors, ReadHead, Largest, Each, Table, U32Of;
    KeysOfPut(h, decode, data);
    TensorsParsed(h, WithKeys(head, TableOf(h, decode)), data);
  }

  lemma CountsParsed(h: Header, head: Head, data: Bytes, decode: Decoder)
    requires Valid(h) && |data| <= head.bytesRead
    ensures ParseCounts(head, PutCounts(h, data), decode)
         == ReadHead(WithKeys(head.(tensorCount := |h.tensors|), TableOf(h, decode)),
                     head.bytesRead - |data|, Largest(Each(EndOf, h.tensors)))
  {
    hide Number, PutNumber, PutKeys, ParseKeys, ReadHead, WithKeys, Largest, Each, TableOf;
    NumberOfPut(|h.tensors|, 8, PutNumber(|h.keys|, 8, PutKeys(h, data)));
    NumberOfPut(|h.keys|, 8, PutKeys(h, data));
    KeysParsed(h, head.(tensorCount := |h.tensors|), data, decode);
  }

  /**
   A printed header, whatever follows it, is read back part by part; the data it describes
   ends at the largest tensor end past the aligned end of the header itself.
   */
  lemma HeaderRoundTrip(h: Header, data: Bytes, decode: Decoder)
    requires Valid(h)
    ensures var kv := TableOf(h, decode);
      var alignment := AlignmentOf(h.keys, decode);
      Parse(Print(h) + data, decode) ==
        Head(Some(h.version), |h.tensors|, kv, true, alignment,
             if UsableAlignment(alignment)
             then Some(AlignUp(|Print(h)|, alignment) + Largest(Each(EndOf, h.tensors))) else None,
             false,
             if UsableAlignment(alignment) then None else Some(Alignment(alignment)),
             |Print(h)| + |data|)
  {
    hide Number, PutNumber, PutCounts, ParseCounts, Largest, Each, TableOf, AlignUp, UsableAlignment, U32Of;
    hide AlignmentOf;
    PrintThenData(h, data);
    var rest := PutNumber(h.version, 4, PutCounts(h, data));
    TakeOfPut(MAGIC, rest);
    NumberOfPut(h.version, 4, PutCounts(h, data));
    var head := FreshHead(|Put(h, data)|).(version := Some(h.version));
    CountsParsed(h, head, data, decode);
    AlignmentIsRead(h, decode);
  }

  lemma AlignmentIsRead(h: Header, decode: Decoder)
    requires Valid(h)
    ensures U32Of(TableOf(h, decode), "general.alignment").GetOr(32) == AlignmentOf(h.keys, decode)
  {
    hide U32Of, AlignmentOf, ValidTensor;
    AlignmentIsLookedUp(h.keys, decode);
  }

  lemma {:induction false} AlignmentIsLookedUp(keys: seq<Key>, decode: Decoder)
    requires forall k :: k in keys ==> ValidKey(k)
    ensures U32Of(Table(Each(AsPair(decode), keys)), "general.alignment").GetOr(32) == AlignmentOf(keys, decode)
  {
    hide U32Of, Each, AsPair, ValidKey, PairOf;
    if keys == [] {
      NothingIsLookedUp(decode);
    } else {
      var fewer, last := keys[..|keys| - 1], keys[|keys| - 1];
      var pairs := Each(AsPair(decode), keys);
      assert last in keys;
      assert pairs[..|keys| - 1] == Each(AsPair(decode), fewer);
      assert pairs[|keys| - 1] == AsPair(decode)(last);
      AlignmentIsLookedUp(fewer, decode);
      LastIsLookedUp(Table(pairs[..|keys| - 1]), last, decode);
    }
  }

  lemma NothingIsLookedUp(decode: Decoder)
    ensures U32Of(Table(Each(AsPair(decode), [])), "general.alignment") == None
  {
  }

  lemma LastIsLookedUp(before: Keys, last: Key, decode: Decoder)
    requires ValidKey(last)
    ensures var pair := AsPair(decode)(last);
      U32Of(before[pair.key := pair], "general.alignment").GetOr(32) ==
        if decode(last.name) != "general.alignment" then U32Of(before, "general.alignment").GetOr(32)
        else if last.field.ScalarField? && last.field.primitive == Uint32 && |last.field.raw| == 4 then
          Unsigned(last.field.raw[0], last.field.raw[1], last.field.raw[2], last.field.raw[3])
        else 32
    ensures AsPair(decode)(last).key == decode(last.name)
  {
    hide LittleEndian, Unsigned;
    if last.field.ScalarField? {
      CodesAreDistinct(last.field.primitive);
      if |last.field.raw| == 4 {
        FourBytes(last.field.raw);
      }
    }
  }

  lemma CodesAreDistinct(p: Primitive)
    ensures p.Code() == U32 <==> p == Uint32
    ensures p.Code() < 14 && p.Code() != STRING && p.Code() != ARRAY
  {
  }

  lemma FourBytes(bs: Bytes)
    requires |bs| == 4
    ensures LittleEndian(bs) == Unsigned(bs[0], bs[1], bs[2], bs[3])
  {
    var b2, b3: nat := bs[2], bs[3];
    assert LittleEndian(bs[1..][1..][1..]) == b3;
    assert LittleEndian(bs[1..][1..]) == b2 + 256 * b3;
  }

  /** The end that counts is the greatest of the tensors' ends, or zero without tensors. */
  lemma {:induction false} LargestIsMaximum(ends: seq<nat>)
    ensures forall e :: e in ends ==> e <= Largest(ends)
    ensures if ends == [] then Largest(ends) == 0 else Largest(ends) in ends
  {
    if ends != [] {
      var before := ends[..|ends| - 1];
      LargestIsMaximum(before);
      forall e | e in ends ensures e <= Largest(ends) {
        var i :| 0 <= i < |ends| && ends[i] == e;
        if i < |before| {
          assert before[i] == e && e in before;
        } else {
          assert e == ends[|ends| - 1];
        }
      }
      if Largest(before) in before {
        var i :| 0 <= i < |before| && before[i] == Largest(before);
        assert ends[i] == Largest(before);
      }
    }
  }

  /** Of several keys with one name, the last one counts. */
  lemma {:induction false} LastOfANameCounts(pairs: seq<Pair>, i: nat)
    requires i < |pairs| && forall j :: i < j < |pairs| ==> pairs[j].key != pairs[i].key
    ensures pairs[i].key in Table(pairs) && Table(pairs)[pairs[i].key] == pairs[i]
  {
    var before := pairs[..|pairs| - 1];
    if i < |before| {
      assert before[i] == pairs[i];
      LastOfANameCounts(before, i);
    }
  }

  /** Nothing is in the table that was not read under its own name. */
  lemma {:induction false} TableHoldsOnlyPairs(pairs: seq<Pair>, k: string)
    requires k in Table(pairs)
    ensures Table(pairs)[k] in pairs && Table(pairs)[k].key == k
  {
    var before, last := pairs[..|pairs| - 1], pairs[|pairs| - 1];
    assert pairs == before + [last];
    if k != last.key {
      TableHoldsOnlyPairs(before, k);
    }
  }

  ghost predicate DistinctNames(pairs: seq<Pair>) {
    forall i, j :: 0 <= i < j < |pairs| ==> pairs[i].key != pairs[j].key
  }

  /** With distinct names every pair stays in the table, and nothing else is there. */
  lemma {:induction false} DistinctNamesAllStay(pairs: seq<Pair>)
    requires DistinctNames(pairs)
    ensures |Table(pairs)| == |pairs|
    ensures forall p :: p in pairs ==> p.key in Table(pairs) && Table(pairs)[p.key] == p
  {
    forall p | p in pairs
      ensures p.key in Table(pairs) && Table(pairs)[p.key] == p
    {
      var i :| 0 <= i < |pairs| && pairs[i] == p;
      LastOfANameCounts(pairs, i);
    }
    if pairs != [] {
      var before, last := pairs[..|pairs| - 1], pairs[|pairs| - 1];
      DistinctNamesAllStay(before);
      if last.key in Table(before) {
        TableHoldsOnlyPairs(before, last.key);
        assert false;
      }
    }
  }

  /** The walk's own alignment test accepts exactly the powers of two. */
  lemma AcceptedAlignments(alignment: nat)
    ensures UsableAlignment(alignment) <==> alignment > 0 && IsPowerOfTwo(alignment)
  {
    hide BitAnd;
    if alignment > 0 {
      PowerOfTwoTest(alignment);
    }
  }
}
