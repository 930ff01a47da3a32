/**
 What the header walk of `Gguf` promises of any bytes: more of them never change an answer that
 was not short, and the walk reads no more texts, keys or tensors than there are bytes for.
 */
module GgufProperties {
  import opened Results
  import opened Bits
  import opened Gguf

  // ----- More bytes change nothing --------------------------------------------

  /** `longer` is what `read` becomes when `more` bytes follow its input, unless it was short. */
  ghost predicate Extends<T>(read: Read<T>, longer: Read<T>, more: Bytes) {
    match read
    case Ok((value, rest)) => longer == Ok((value, rest + more))
    case Err(Bad(p)) => longer == Err(Bad(p))
    case Err(Short) => true
  }

  /** As `Extends`, for a repeated read. */
  ghost predicate ManyExtend<T>(read: Many<T>, longer: Many<T>, more: Bytes) {
    match read.end
    case Ok(rest) => longer == Many(read.values, Ok(rest + more))
    case Err(Bad(_)) => longer == read
    case Err(Short) => true
  }

  lemma TakeExtends(rest: Bytes, n: nat, more: Bytes)
    ensures Extends(Take(rest, n), Take(rest + more, n), more)
  {
    if n <= |rest| {
      assert (rest + more)[..n] == rest[..n];
      assert (rest + more)[n..] == rest[n..] + more;
    }
  }

  lemma NumberExtends(rest: Bytes, width: nat, more: Bytes)
    ensures Extends(Number(rest, width), Number(rest + more, width), more)
  {
    TakeExtends(rest, width, more);
  }

  lemma CharsExtends(rest: Bytes, more: Bytes)
    ensures Extends(Chars(rest), Chars(rest + more), more)
  {
    NumberExtends(rest, 8, more);
    if Number(rest, 8).Ok? {
      TakeExtends(Number(rest, 8).value.1, Number(rest, 8).value.0, more);
    }
  }

  lemma {:induction false} RepeatExtends<T>(read: Bytes -> Read<T>, rest: Bytes, count: nat, more: Bytes)
    requires forall b: Bytes :: Extends(read(b), read(b + more), more)
    ensures ManyExtend(Repeat(read, rest, count), Repeat(read, rest + more, count), more)
    decreases count
  {
    if count > 0 {
      assert Extends(read(rest), read(rest + more), more);
      if read(rest).Ok? {
        RepeatExtends(read, read(rest).value.1, count - 1, more);
      }
    }
  }

  lemma TextsExtend(rest: Bytes, count: nat, more: Bytes)
    ensures ManyExtend(Repeat(Chars, rest, count), Repeat(Chars, rest + more, count), more)
  {
    forall b: Bytes ensures Extends(Chars(b), Chars(b + more), more) {
      CharsExtends(b, more);
    }
    RepeatExtends(Chars, rest, count, more);
  }

  lemma DimensionsExtend(rest: Bytes, count: nat, more: Bytes)
    ensures ManyExtend(Repeat(Dimension, rest, count), Repeat(Dimension, rest + more, count), more)
  {
    forall b: Bytes ensures Extends(Dimension(b), Dimension(b + more), more) {
      NumberExtends(b, 8, more);
    }
    RepeatExtends(Dimension, rest, count, more);
  }

  lemma SkipArrayExtends(rest: Bytes, more: Bytes)
    ensures Extends(SkipArray(rest), SkipArray(rest + more), more)
  {
    hide Repeat, Number, Take, ScalarWidth;
    NumberExtends(rest, 4, more);
    if Number(rest, 4).Ok? {
      var (elem, rest1) := Number(rest, 4).value;
      NumberExtends(rest1, 8, more);
      if Number(rest1, 8).Ok? {
        var (count, rest2) := Number(rest1, 8).value;
        TextsExtend(rest2, count, more);
        if ScalarWidth(elem).Some? {
          TakeExtends(rest2, ScalarWidth(elem).value * count, more);
        }
      }
    }
  }

  lemma ReadValueExtends(rest: Bytes, kind: nat, decode: Decoder, more: Bytes)
    ensures Extends(ReadValue(rest, kind, decode), ReadValue(rest + more, kind, decode), more)
  {
    CharsExtends(rest, more);
    SkipArrayExtends(rest, more);
    if ScalarWidth(kind).Some? {
      TakeExtends(rest, ScalarWidth(kind).value, more);
    }
  }

  lemma ReadPairExtends(rest: Bytes, decode: Decoder, more: Bytes)
    ensures Extends(ReadPair(rest, decode), ReadPair(rest + more, decode), more)
  {
    CharsExtends(rest, more);
    if Chars(rest).Ok? {
      var rest1 := Chars(rest).value.1;
      NumberExtends(rest1, 4, more);
      if Number(rest1, 4).Ok? {
        var (kind, rest2) := Number(rest1, 4).value;
        ReadValueExtends(rest2, kind, decode, more);
      }
    }
  }

  lemma TensorShapeExtends(rest: Bytes, more: Bytes)
    ensures Extends(TensorShape(rest), TensorShape(rest + more), more)
  {
    hide Repeat, Number, Take, Product;
    NumberExtends(rest, 8, more);
    if Number(rest, 8).Ok? {
      var (nameLen, rest1) := Number(rest, 8).value;
      TakeExtends(rest1, nameLen, more);
      if nameLen <= MAX_NAME_BYTES && Take(rest1, nameLen).Ok? {
        var rest2 := Take(rest1, nameLen).value.1;
        NumberExtends(rest2, 4, more);
        if Number(rest2, 4).Ok? {
          var (dims, rest3) := Number(rest2, 4).value;
          DimensionsExtend(rest3, dims, more);
        }
      }
    }
  }

  lemma TensorEndExtends(rest: Bytes, more: Bytes)
    ensures Extends(TensorEnd(rest), TensorEnd(rest + more), more)
  {
    TensorShapeExtends(rest, more);
    if TensorShape(rest).Ok? {
      var rest1 := TensorShape(rest).value.1;
      NumberExtends(rest1, 4, more);
      if Number(rest1, 4).Ok? {
        NumberExtends(Number(rest1, 4).value.1, 8, more);
      }
    }
  }

  lemma TensorsExtend(rest: Bytes, count: nat, more: Bytes)
    ensures ManyExtend(Repeat(TensorEnd, rest, count), Repeat(TensorEnd, rest + more, count), more)
  {
    forall b: Bytes ensures Extends(TensorEnd(b), TensorEnd(b + more), more) {
      TensorEndExtends(b, more);
    }
    RepeatExtends(TensorEnd, rest, count, more);
  }

  lemma PairsExtend(rest: Bytes, count: nat, decode: Decoder, more: Bytes)
    ensures ManyExtend(Repeat(PairReader(decode), rest, count),
                       Repeat(PairReader(decode), rest + more, count), more)
  {
    var read := PairReader(decode);
    forall b: Bytes ensures Extends(read(b), read(b + more), more) {
      ReadPairExtends(b, decode, more);
    }
    RepeatExtends(read, rest, count, more);
  }

  lemma DataEndFrom(rest: Bytes, total: nat, count: nat, alignment: nat, ends: seq<nat>, data: Bytes)
    requires |data| <= total && Repeat(TensorEnd, rest, count) == Many(ends, Ok(data))
    ensures DataEnd(rest, total, count, alignment) ==
      if UsableAlignment(alignment) then Ok(AlignUp(total - |data|, alignment) + Largest(ends))
      else Err(Bad(Alignment(alignment)))
  {
    hide Repeat, AlignUp, UsableAlignment, Largest, TensorEnd;
  }

  // ----- Every read consumes bytes --------------------------------------------

  /** `read` takes at least `least` of the bytes it is given. */
  ghost predicate Consumes<T>(read: Read<T>, rest: Bytes, least: nat) {
    read.Ok? ==> |read.value.1| + least <= |rest|
  }

  /**
   A repeated read that takes at least `least` bytes at a time gets no more values than there
   are bytes for, however it ends, and at its end they are as many as were asked for.
   */
  lemma {:induction false} RepeatConsumes<T>(read: Bytes -> Read<T>, rest: Bytes, count: nat, least: nat)
    requires forall b: Bytes :: Consumes(read(b), b, least)
    ensures var many := Repeat(read, rest, count);
      && least * |many.values| + (if many.end.Ok? then |many.end.value| else 0) <= |rest|
      && (many.end.Ok? ==> |many.values| == count)
    decreases count
  {
    if count > 0 {
      assert Consumes(read(rest), rest, least);
      if read(rest).Ok? {
        RepeatConsumes(read, read(rest).value.1, count - 1, least);
        OneMoreTime(least, |Repeat(read, read(rest).value.1, count - 1).values|);
      }
    }
  }

  lemma OneMoreTime(least: nat, n: nat)
    ensures least * (n + 1) == least * n + least
  {
  }

  /** A text takes the eight bytes of its length, so a walk over texts ends with the bytes. */
  lemma TextsAreBounded(rest: Bytes, count: nat)
    ensures var many := Repeat(Chars, rest, count);
      && 8 * |many.values| + (if many.end.Ok? then |many.end.value| else 0) <= |rest|
      && (many.end.Ok? ==> |many.values| == count && 8 * count <= |rest|)
  {
    RepeatConsumes(Chars, rest, count, 8);
  }

  lemma DimensionsAreBounded(rest: Bytes, count: nat)
    ensures var many := Repeat(Dimension, rest, count);
      8 * |many.values| + (if many.end.Ok? then |many.end.value| else 0) <= |rest|
      && (many.end.Ok? ==> |many.values| == count)
  {
    RepeatConsumes(Dimension, rest, count, 8);
  }

  lemma TensorShapeConsumes(rest: Bytes)
    ensures Consumes(TensorShape(rest), rest, 20)
  {
    hide Repeat;
    if TensorShape(rest).Ok? {
      var (nameLen, rest1) := Number(rest, 8).value;
      var rest2 := Take(rest1, nameLen).value.1;
      var (dims, rest3) := Number(rest2, 4).value;
      DimensionsAreBounded(rest3, dims);
    }
  }

  lemma TensorEndConsumes(rest: Bytes)
    ensures Consumes(TensorEnd(rest), rest, 32)
  {
    hide TensorShape, Measure, Block;
    TensorShapeConsumes(rest);
  }

  /** A tensor takes at least 32 bytes: two lengths, one dimension, its type and its offset. */
  lemma TensorsAreBounded(rest: Bytes, count: nat)
    ensures var many := Repeat(TensorEnd, rest, count);
      && 32 * |many.values| + (if many.end.Ok? then |many.end.value| else 0) <= |rest|
      && (many.end.Ok? ==> |many.values| == count && 32 * count <= |rest|)
  {
    hide TensorEnd;
    forall b: Bytes ensures Consumes(TensorEnd(b), b, 32) {
      TensorEndConsumes(b);
    }
    RepeatConsumes(TensorEnd, rest, count, 32);
  }

  /** A key takes at least 13 bytes: its name's length, its type, and one byte of value. */
  lemma KeysAreBounded(rest: Bytes, count: nat, decode: Decoder)
    ensures var many := Repeat(PairReader(decode), rest, count);
      && 13 * |many.values| + (if many.end.Ok? then |many.end.value| else 0) <= |rest|
      && (many.end.Ok? ==> |many.values| == count && 13 * count <= |rest|)
  {
    hide ReadPair;
    var read := PairReader(decode);
    forall b: Bytes ensures Consumes(read(b), b, 13) {
      PairConsumes(b, decode);
    }
    RepeatConsumes(read, rest, count, 13);
  }

  lemma PairConsumes(rest: Bytes, decode: Decoder)
    ensures Consumes(ReadPair(rest, decode), rest, 13)
  {
    hide ReadValue;
    if ReadPair(rest, decode).Ok? {
      var rest1 := Chars(rest).value.1;
      var (kind, rest2) := Number(rest1, 4).value;
      ValueConsumes(rest2, kind, decode);
    }
  }

  lemma ValueConsumes(rest: Bytes, kind: nat, decode: Decoder)
    ensures Consumes(ReadValue(rest, kind, decode), rest, 1)
  {
    hide Repeat;
    if kind == ARRAY && SkipArray(rest).Ok? {
      var (elem, rest1) := Number(rest, 4).value;
      var (count, rest2) := Number(rest1, 8).value;
      TextsAreBounded(rest2, count);
    }
  }

  lemma DataEndExtends(rest: Bytes, total: nat, count: nat, alignment: nat, more: Bytes)
    requires |rest| <= total && DataEnd(rest, total, count, alignment) != Err(Short)
    ensures DataEnd(rest + more, total + |more|, count, alignment) == DataEnd(rest, total, count, alignment)
  {
    hide Repeat, TensorEnd, AlignUp, UsableAlignment, Largest;
    TensorsExtend(rest, count, more);
    TensorsAreBounded(rest, count);
    var read := Repeat(TensorEnd, rest, count);
    if read.end.Ok? {
      DataEndFrom(rest, total, count, alignment, read.values, read.end.value);
      DataEndFrom(rest + more, total + |more|, count, alignment, read.values, read.end.value + more);
    }
  }

  /** The same head for a buffer of `more` further bytes. */
  function Wider(head: Head, more: nat): Head {
    head.(bytesRead := head.bytesRead + more)
  }

  lemma ParseTensorsExtends(head: Head, rest: Bytes, more: Bytes)
    requires |rest| <= head.bytesRead && !ParseTensors(head, rest).short
    ensures ParseTensors(Wider(head, |more|), rest + more) == Wider(ParseTensors(head, rest), |more|)
  {
    hide DataEnd;
    if head.tensorCount <= MAX_TENSORS {
      DataEndExtends(rest, head.bytesRead, head.tensorCount, head.alignment, more);
    }
  }

  lemma ParseKeysExtends(head: Head, rest: Bytes, pairs: nat, decode: Decoder, more: Bytes)
    requires |rest| <= head.bytesRead && !ParseKeys(head, rest, pairs, decode).short
    ensures ParseKeys(Wider(head, |more|), rest + more, pairs, decode)
         == Wider(ParseKeys(head, rest, pairs, decode), |more|)
  {
    hide ParseTensors, Repeat, Table, U32Of, PairReader;
    var count := if pairs <= MAX_KVS then pairs else MAX_KVS;
    PairsExtend(rest, count, decode, more);
    KeysAreBounded(rest, count, decode);
    var read := Repeat(PairReader(decode), rest, count);
    if read.end.Ok? && pairs <= MAX_KVS {
      ParseTensorsExtends(WithKeys(head, Table(read.values)), read.end.value, more);
    }
  }

  lemma ParseCountsExtends(head: Head, rest: Bytes, decode: Decoder, more: Bytes)
    requires |rest| <= head.bytesRead && !ParseCounts(head, rest, decode).short
    ensures ParseCounts(Wider(head, |more|), rest + more, decode)
         == Wider(ParseCounts(head, rest, decode), |more|)
  {
    hide ParseKeys;
    NumberExtends(rest, 8, more);
    var (tensors, rest1) := Number(rest, 8).value;
    NumberExtends(rest1, 8, more);
    var (pairs, rest2) := Number(rest1, 8).value;
    ParseKeysExtends(head.(tensorCount := tensors), rest2, pairs, decode, more);
  }

  /** A head that is not short is the head of every longer buffer, but for its byte count. */
  lemma MoreBytesChangeNothing(buf: Bytes, more: Bytes, decode: Decoder)
    requires !Parse(buf, decode).short
    ensures Parse(buf + more, decode) == Wider(Parse(buf, decode), |more|)
  {
    hide ParseCounts;
    TakeExtends(buf, 4, more);
    var (magic, rest) := Take(buf, 4).value;
    if magic == MAGIC {
      NumberExtends(rest, 4, more);
      var (version, rest1) := Number(rest, 4).value;
      if version in {2, 3} {
        ParseCountsExtends(FreshHead(|buf|).(version := Some(version)), rest1, decode, more);
      }
    }
  }
}
