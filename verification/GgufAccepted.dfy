/**
 The converse of the round trip of `GgufRoundTrip`: whatever the header walk accepts was printed
 from some header, so it accepts exactly the printed ones.
 */
module GgufAccepted {
  import opened Results
  import opened Gguf
  import opened GgufRoundTrip

  // ----- What a read took, printed --------------------------------------------

  lemma {:induction false} EncodeDecode(bs: Bytes)
    ensures LittleEndian(bs) < Pow256(|bs|)
    ensures Encode(LittleEndian(bs), |bs|) == bs
  {
    if bs != [] {
      EncodeDecode(bs[1..]);
      var n := LittleEndian(bs[1..]);
      assert LittleEndian(bs) == bs[0] + 256 * n;
      assert LittleEndian(bs) % 256 == bs[0] && LittleEndian(bs) / 256 == n;
      assert bs == [bs[0]] + bs[1..];
    }
  }

  lemma NumberWas(rest: Bytes, width: nat)
    requires Number(rest, width).Ok?
    ensures var (n, after) := Number(rest, width).value;
      && rest == PutNumber(n, width, after)
      && (width == 4 ==> n <= U32_MAX) && (width == 8 ==> n <= U64_MAX)
  {
    hide LittleEndian, Encode, Pow256;
    Widths();
    EncodeDecode(rest[..width]);
    assert rest == rest[..width] + rest[width..];
  }

  lemma CharsWere(rest: Bytes)
    requires Chars(rest).Ok?
    ensures var (bs, after) := Chars(rest).value;
      rest == PutChars(bs, after) && |bs| <= U64_MAX
  {
    hide PutNumber, Number;
    NumberWas(rest, 8);
    var (n, rest1) := Number(rest, 8).value;
    assert rest1 == rest1[..n] + rest1[n..];
  }

  /** One read of `read` took exactly what `put` prints for some item, and gave its value. */
  ghost predicate Printed<A(!new), T>(
    read: Read<T>, put: (A, Bytes) -> Bytes, valid: A -> bool, value: A -> T, rest: Bytes)
  {
    read.Ok? ==>
      exists a :: valid(a) && rest == put(a, read.value.1) && value(a) == read.value.0
  }

  /** So did each of a repeated one. */
  lemma {:induction false} RepeatWas<A(!new), T>(
    read: Bytes -> Read<T>, put: (A, Bytes) -> Bytes, valid: A -> bool, value: A -> T, rest: Bytes, count: nat)
    returns (items: seq<A>)
    requires forall b: Bytes :: Printed(read(b), put, valid, value, b)
    requires Repeat(read, rest, count).end.Ok?
    ensures |items| == count && forall a :: a in items ==> valid(a)
    ensures rest == PutAll(put, items, Repeat(read, rest, count).end.value)
    ensures Each(value, items) == Repeat(read, rest, count).values
    decreases count
  {
    if count == 0 {
      items := [];
    } else {
      assert Printed(read(rest), put, valid, value, rest);
      var a :| valid(a) && rest == put(a, read(rest).value.1) && value(a) == read(rest).value.0;
      var more := RepeatWas(read, put, valid, value, read(rest).value.1, count - 1);
      items := [a] + more;
      assert items[1..] == more;
    }
  }

  function TextFits(): Bytes -> bool {
    (t: Bytes) => |t| <= U64_MAX
  }

  function DimensionFits(): nat -> bool {
    (n: nat) => n <= U64_MAX
  }

  function Same<T>(): T -> T {
    (t: T) => t
  }

  lemma {:induction false} EachSame<T>(items: seq<T>)
    ensures Each(Same<T>(), items) == items
  {
    assert forall i :: 0 <= i < |items| ==> Each(Same<T>(), items)[i] == items[i];
  }

  lemma TextsWere(rest: Bytes, count: nat) returns (texts: seq<Bytes>)
    requires Repeat(Chars, rest, count).end.Ok?
    ensures |texts| == count && forall t :: t in texts ==> |t| <= U64_MAX
    ensures rest == PutAll(PutChars, texts, Repeat(Chars, rest, count).end.value)
  {
    hide Repeat, Chars, PutChars, PutAll;
    forall b: Bytes ensures Printed(Chars(b), PutChars, TextFits(), Same<Bytes>(), b) {
      if Chars(b).Ok? {
        CharsWere(b);
        var t := Chars(b).value.0;
        assert TextFits()(t) && b == PutChars(t, Chars(b).value.1) && Same<Bytes>()(t) == t;
      }
    }
    texts := RepeatWas(Chars, PutChars, TextFits(), Same<Bytes>(), rest, count);
    assert forall t :: t in texts ==> TextFits()(t);
  }

  lemma DimensionsWere(rest: Bytes, count: nat) returns (dims: seq<nat>)
    requires Repeat(Dimension, rest, count).end.Ok?
    ensures |dims| == count && forall n :: n in dims ==> n <= U64_MAX
    ensures rest == PutAll(PutDimension, dims, Repeat(Dimension, rest, count).end.value)
    ensures dims == Repeat(Dimension, rest, count).values
  {
    hide Repeat, Number, PutNumber, PutAll;
    forall b: Bytes ensures Printed(Dimension(b), PutDimension, DimensionFits(), Same<nat>(), b) {
      if Dimension(b).Ok? {
        NumberWas(b, 8);
        var n := Dimension(b).value.0;
        assert DimensionFits()(n) && b == PutDimension(n, Dimension(b).value.1) && Same<nat>()(n) == n;
      }
    }
    dims := RepeatWas(Dimension, PutDimension, DimensionFits(), Same<nat>(), rest, count);
    EachSame(dims);
    assert forall n :: n in dims ==> DimensionFits()(n);
  }

  // ----- Keys -----------------------------------------------------------------

  /** Every code with a width is one of the primitives'. */
  lemma PrimitiveFor(kind: nat) returns (p: Primitive)
    requires ScalarWidth(kind).Some?
    ensures p.Code() == kind && ScalarWidth(kind) == Some(p.Width())
  {
    p := match kind
      case 0 => Uint8
      case 1 => Int8
      case 2 => Uint16
      case 3 => Int16
      case 4 => Uint32
      case 5 => Int32
      case 6 => Float32
      case 7 => Bool
      case 10 => Uint64
      case 11 => Int64
      case _ => Float64;
  }

  lemma ArrayWas(rest: Bytes) returns (f: Field)
    requires SkipArray(rest).Ok?
    ensures ValidField(f) && KindOf(f) == ARRAY && (f.ScalarArray? || f.TextArray?)
    ensures rest == PutField(f, SkipArray(rest).value.1)
  {
    hide Repeat, Number, PutNumber, PutChars, PutAll, ScalarWidth;
    NumberWas(rest, 4);
    var (elem, rest1) := Number(rest, 4).value;
    NumberWas(rest1, 8);
    var (count, rest2) := Number(rest1, 8).value;
    if elem == STRING {
      var texts := TextsWere(rest2, count);
      f := TextArray(texts);
    } else {
      var p := PrimitiveFor(elem);
      var n := p.Width() * count;
      f := ScalarArray(p, count, rest2[..n]);
      assert rest2 == rest2[..n] + rest2[n..];
    }
  }

  lemma ValueWas(rest: Bytes, kind: nat, decode: Decoder) returns (f: Field)
    requires ReadValue(rest, kind, decode).Ok?
    ensures ValidField(f) && KindOf(f) == kind
    ensures rest == PutField(f, ReadValue(rest, kind, decode).value.1)
    ensures ValueOf(f, decode) == ReadValue(rest, kind, decode).value.0
  {
    hide Chars, PutChars, SkipArray, PutNumber, PutAll, ScalarWidth;
    if kind == STRING {
      CharsWere(rest);
      f := TextField(Chars(rest).value.0);
    } else if kind == ARRAY {
      f := ArrayWas(rest);
    } else {
      var p := PrimitiveFor(kind);
      var n := p.Width();
      f := ScalarField(p, rest[..n]);
      assert rest == rest[..n] + rest[n..];
    }
  }

  lemma KeyWas(rest: Bytes, decode: Decoder) returns (k: Key)
    requires ReadPair(rest, decode).Ok?
    ensures ValidKey(k) && rest == PutKey(k, ReadPair(rest, decode).value.1)
    ensures PairOf(k, decode) == ReadPair(rest, decode).value.0
  {
    hide Chars, PutChars, Number, PutNumber, ReadValue, PutField, ValidField, ValueOf, KindOf;
    CharsWere(rest);
    var (name, rest1) := Chars(rest).value;
    NumberWas(rest1, 4);
    var (kind, rest2) := Number(rest1, 4).value;
    var f := ValueWas(rest2, kind, decode);
    k := Key(name, f);
  }

  function KeyFits(): Key -> bool {
    k => ValidKey(k)
  }

  lemma KeysWere(rest: Bytes, count: nat, decode: Decoder) returns (keys: seq<Key>)
    requires Repeat(PairReader(decode), rest, count).end.Ok?
    ensures |keys| == count && forall k :: k in keys ==> ValidKey(k)
    ensures rest == PutAll(PutKey, keys, Repeat(PairReader(decode), rest, count).end.value)
  {
    hide Repeat, ReadPair, PutKey, PutAll, ValidKey, PairOf;
    var read := PairReader(decode);
    forall b: Bytes ensures Printed(read(b), PutKey, KeyFits(), AsPair(decode), b) {
      if read(b).Ok? {
        var k := KeyWas(b, decode);
        assert KeyFits()(k) && b == PutKey(k, read(b).value.1) && AsPair(decode)(k) == read(b).value.0;
      }
    }
    keys := RepeatWas(read, PutKey, KeyFits(), AsPair(decode), rest, count);
    assert forall k :: k in keys ==> KeyFits()(k);
  }

  // ----- Tensors --------------------------------------------------------------

  lemma ShapeWas(rest: Bytes) returns (name: Bytes, dims: seq<nat>)
    requires TensorShape(rest).Ok?
    ensures |name| <= MAX_NAME_BYTES && 1 <= |dims| <= MAX_DIMS && forall n :: n in dims ==> n <= U64_MAX
    ensures TensorShape(rest).value.0 == Product(dims)
    ensures rest == PutChars(name, PutNumber(|dims|, 4, PutAll(PutDimension, dims, TensorShape(rest).value.1)))
  {
    hide Number, PutNumber, Repeat, PutAll, Product;
    NumberWas(rest, 8);
    var (n, rest1) := Number(rest, 8).value;
    name := rest1[..n];
    var rest2 := rest1[n..];
    assert rest1 == name + rest2;
    NumberWas(rest2, 4);
    var (count, rest3) := Number(rest2, 4).value;
    dims := DimensionsWere(rest3, count);
  }

  lemma MeasureWas(elements: nat, t: Tensor)
    requires elements == Product(t.dims) && Block(t.elem.Code()).Some?
    requires Measure(elements, Block(t.elem.Code()).value, t.offset).Ok?
    ensures elements == Count(t.dims) <= U64_MAX && elements % t.elem.Elements() == 0
    ensures Measure(elements, Block(t.elem.Code()).value, t.offset) == Ok(EndOf(t)) && EndOf(t) <= U64_MAX
  {
    hide Product, Count;
    TypeIsMeasured(t.elem);
    ProductIsCount(t.dims);
  }

  /** Every code that can be measured is one of the tensor types'. */
  lemma TypeFor(kind: nat) returns (t: TensorType)
    requires Block(kind).Some?
    ensures t.Code() == kind
  {
    t := match kind
      case 0 => F32
      case 1 => F16
      case 2 => Q4_0
      case 3 => Q4_1
      case 6 => Q5_0
      case 7 => Q5_1
      case 8 => Q8_0
      case 10 => Q2_K
      case 11 => Q3_K
      case 12 => Q4_K
      case 13 => Q5_K
      case 14 => Q6_K
      case 24 => I8
      case 25 => I16
      case 26 => I32
      case 27 => I64
      case 28 => F64
      case _ => BF16;
  }

  lemma TensorWas(rest: Bytes) returns (t: Tensor)
    requires TensorEnd(rest).Ok?
    ensures ValidTensor(t) && rest == PutTensor(t, TensorEnd(rest).value.1)
    ensures EndOf(t) == TensorEnd(rest).value.0
  {
    hide TensorShape, Number, PutNumber, PutChars, PutAll, Measure, EndOf, Block, Product, Count;
    var name, dims := ShapeWas(rest);
    var (elements, rest1) := TensorShape(rest).value;
    NumberWas(rest1, 4);
    var (kind, rest2) := Number(rest1, 4).value;
    NumberWas(rest2, 8);
    var (offset, rest3) := Number(rest2, 8).value;
    var elem := TypeFor(kind);
    t := Tensor(name, dims, elem, offset);
    MeasureWas(elements, t);
  }

  function TensorFits(): Tensor -> bool {
    t => ValidTensor(t)
  }

  lemma TensorsWere(rest: Bytes, count: nat) returns (tensors: seq<Tensor>)
    requires Repeat(TensorEnd, rest, count).end.Ok?
    ensures |tensors| == count && forall t :: t in tensors ==> ValidTensor(t)
    ensures rest == PutAll(PutTensor, tensors, Repeat(TensorEnd, rest, count).end.value)
  {
    hide Repeat, TensorEnd, PutTensor, PutAll, ValidTensor, EndOf;
    forall b: Bytes ensures Printed(TensorEnd(b), PutTensor, TensorFits(), EndOf, b) {
      if TensorEnd(b).Ok? {
        var t := TensorWas(b);
        assert TensorFits()(t) && b == PutTensor(t, TensorEnd(b).value.1) && EndOf(t) == TensorEnd(b).value.0;
      }
    }
    tensors := RepeatWas(TensorEnd, PutTensor, TensorFits(), EndOf, rest, count);
    assert forall t :: t in tensors ==> TensorFits()(t);
  }

  // ----- The header -----------------------------------------------------------

  /** The parts of what was read after the counts, and the bytes the tensor table ends before. */
  lemma PartsWere(head: Head, rest: Bytes, pairs: nat, decode: Decoder)
    returns (keys: seq<Key>, tensors: seq<Tensor>, data: Bytes)
    requires ParseKeys(head, rest, pairs, decode).dataEnd.Some? && head.dataEnd.None?
    ensures |keys| == pairs <= MAX_KVS && (forall k :: k in keys ==> ValidKey(k))
    ensures |tensors| == head.tensorCount <= MAX_TENSORS && (forall t :: t in tensors ==> ValidTensor(t))
    ensures rest == PutAll(PutKey, keys, PutAll(PutTensor, tensors, data))
  {
    hide Repeat, PairReader, TensorEnd, PutKey, PutTensor, PutAll, ValidKey, ValidTensor, Table, Largest;
    var count := if pairs <= MAX_KVS then pairs else MAX_KVS;
    var read := Repeat(PairReader(decode), rest, count);
    assert read.end.Ok? && pairs <= MAX_KVS;
    keys := KeysWere(rest, pairs, decode);
    var rest1 := read.end.value;
    tensors := TensorsWere(rest1, head.tensorCount);
    data := Repeat(TensorEnd, rest1, head.tensorCount).end.value;
  }

  /** Every buffer with an answer begins with a printed header. */
  lemma AcceptedWasPrinted(buf: Bytes, decode: Decoder) returns (h: Header, data: Bytes)
    requires Parse(buf, decode).dataEnd.Some?
    ensures Valid(h) && buf == Print(h) + data
  {
    hide Number, PutNumber, ParseKeys, PutAll, ValidKey, ValidTensor, PutKey, PutTensor;
    var rest0 := buf[4..];
    assert buf == MAGIC + rest0;
    NumberWas(rest0, 4);
    var (version, rest1) := Number(rest0, 4).value;
    NumberWas(rest1, 8);
    var (count, rest2) := Number(rest1, 8).value;
    NumberWas(rest2, 8);
    var (pairs, rest3) := Number(rest2, 8).value;
    var head := FreshHead(|buf|).(version := Some(version)).(tensorCount := count);
    var keys, tensors, rest4 := PartsWere(head, rest3, pairs, decode);
    h, data := Header(version, keys, tensors), rest4;
    assert buf == Put(h, data);
    PrintThenData(h, data);
  }

  /** `buf` is a printed header whose keys give a usable alignment, and any data. */
  ghost predicate IsPrinted(buf: Bytes, decode: Decoder) {
    exists h, data :: Valid(h) && buf == Print(h) + data && UsableAlignment(AlignmentOf(h.keys, decode))
  }

  /** The walk finds the end of the data in exactly the printed headers of a usable alignment. */
  lemma AcceptsExactlyThePrinted(buf: Bytes, decode: Decoder)
    ensures Parse(buf, decode).dataEnd.Some? <==> IsPrinted(buf, decode)
  {
    hide Parse, Print, Valid, TableOf, AlignmentOf, UsableAlignment;
    if Parse(buf, decode).dataEnd.Some? {
      var h, data := AcceptedWasPrinted(buf, decode);
      HeaderRoundTrip(h, data, decode);
    } else if IsPrinted(buf, decode) {
      var h, data :| Valid(h) && buf == Print(h) + data && UsableAlignment(AlignmentOf(h.keys, decode));
      HeaderRoundTrip(h, data, decode);
    }
  }
}
