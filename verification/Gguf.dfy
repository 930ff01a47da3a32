/**
 The GGUF header walk of the vision pairing generator (scripts/models/vision_pairings.py):
 what a bounds-checked reader makes of the first bytes of a file. The functions here say what
 each read does to the bytes that remain; `Reader` is the object that walks the buffer.
 */
module Gguf {
  import opened Results
  import opened Bits

  type Byte = b: int | 0 <= b < 256
  type Bytes = seq<Byte>

  /** Decodes UTF-8, putting a replacement where the bytes are not valid. */
  type Decoder = Bytes -> string

  const U32: nat := 4
  const STRING: nat := 8
  const ARRAY: nat := 9
  const MAX_KVS: nat := 4096
  const MAX_TENSORS: nat := 0x1_0000
  const MAX_DIMS: nat := 4
  const MAX_NAME_BYTES: nat := 0x40_0000
  const U64_MAX: nat := 0xFFFF_FFFF_FFFF_FFFF
  const MAGIC: Bytes := [71, 71, 85, 70]

  datatype Problem =
    | NotGguf
    | BadVersion(version: nat)
    | TooManyKeys
    | TooManyTensors
    | ArrayOf(kind: nat)
    | ValueType(kind: nat)
    | Alignment(alignment: nat)
    | LongName
    | Dimensions(dims: nat)
    | TensorType(kind: nat)
    | PartialBlocks
    | PastTheEnd

  /** Why a walk stopped: the bytes ran out, or they say something it refuses. */
  datatype Stop = Short | Bad(problem: Problem)

  /** A value read and the bytes after it. */
  type Read<T> = Result<(T, Bytes), Stop>

  datatype Value = Scalar(raw: Bytes) | Text(text: string) | Skipped

  /** One key as read: its name, its type and its value. */
  datatype Pair = Pair(key: string, kind: nat, value: Value)

  /** Keys with the type and value they were given last. */
  type Keys = map<string, Pair>

  datatype Head = Head(
    version: Option<nat>,
    tensorCount: nat,
    kv: Keys,
    kvComplete: bool,
    alignment: nat,
    dataEnd: Option<nat>,
    short: bool,
    problem: Option<Problem>,
    bytesRead: nat)
  {
    function Stopped(stop: Stop): Head {
      match stop
      case Short => this.(short := true)
      case Bad(p) => this.(problem := Some(p))
    }
  }

  function ScalarWidth(kind: nat): Option<nat> {
    if kind in {0, 1, 7} then Some(1)
    else if kind in {2, 3} then Some(2)
    else if kind in {4, 5, 6} then Some(4)
    else if kind in {10, 11, 12} then Some(8)
    else None
  }

  /** Elements and bytes in one block of a tensor type that can be measured. */
  function Block(kind: nat): (r: Option<(nat, nat)>)
    ensures r.Some? ==> r.value.0 > 0 && kind <= 30
  {
    match kind
    case 0 => Some((1, 4))
    case 1 => Some((1, 2))
    case 2 => Some((32, 18))
    case 3 => Some((32, 20))
    case 6 => Some((32, 22))
    case 7 => Some((32, 24))
    case 8 => Some((32, 34))
    case 10 => Some((256, 84))
    case 11 => Some((256, 110))
    case 12 => Some((256, 144))
    case 13 => Some((256, 176))
    case 14 => Some((256, 210))
    case 24 => Some((1, 1))
    case 25 => Some((1, 2))
    case 26 => Some((1, 4))
    case 27 => Some((1, 8))
    case 28 => Some((1, 8))
    case 30 => Some((1, 2))
    case _ => None
  }

  function LittleEndian(bs: Bytes): nat {
    if bs == [] then 0 else bs[0] + 256 * LittleEndian(bs[1..])
  }

  // ----- What each read does --------------------------------------------------

  function Take(rest: Bytes, n: nat): Read<Bytes> {
    if n > |rest| then Err(Short) else Ok((rest[..n], rest[n..]))
  }

  function Number(rest: Bytes, width: nat): Read<nat> {
    var (bs, rest) :- Take(rest, width);
    Ok((LittleEndian(bs), rest))
  }

  function Chars(rest: Bytes): Read<Bytes> {
    var (n, rest) :- Number(rest, 8);
    Take(rest, n)
  }

  /** The values a repeated read got, and the bytes after the last or why it stopped early. */
  datatype Many<T> = Many(values: seq<T>, end: Result<Bytes, Stop>) {
    function After(first: seq<T>): Many<T> {
      Many(first + values, end)
    }
  }

  function Repeat<T>(read: Bytes -> Read<T>, rest: Bytes, count: nat): Many<T>
    decreases count
  {
    if count == 0 then Many([], Ok(rest))
    else
      match read(rest)
      case Err(stop) => Many([], Err(stop))
      case Ok((value, after)) => Repeat(read, after, count - 1).After([value])
  }

  function SkipArray(rest: Bytes): Read<()> {
    var (elem, rest) :- Number(rest, 4);
    var (count, rest) :- Number(rest, 8);
    if elem == STRING then
      var rest :- Repeat(Chars, rest, count).end;
      Ok(((), rest))
    else if ScalarWidth(elem).Some? then
      var (_, rest) :- Take(rest, ScalarWidth(elem).value * count);
      Ok(((), rest))
    else Err(Bad(ArrayOf(elem)))
  }

  function ReadValue(rest: Bytes, kind: nat, decode: Decoder): Read<Value> {
    if kind == STRING then
      var (bs, rest) :- Chars(rest);
      Ok((Text(decode(bs)), rest))
    else if kind == ARRAY then
      var (_, rest) :- SkipArray(rest);
      Ok((Skipped, rest))
    else if ScalarWidth(kind).None? then Err(Bad(ValueType(kind)))
    else
      var (raw, rest) :- Take(rest, ScalarWidth(kind).value);
      Ok((Scalar(raw), rest))
  }

  function ReadPair(rest: Bytes, decode: Decoder): Read<Pair> {
    var (key, rest) :- Chars(rest);
    var (kind, rest) :- Number(rest, 4);
    var (value, rest) :- ReadValue(rest, kind, decode);
    Ok((Pair(decode(key), kind, value), rest))
  }

  function PairReader(decode: Decoder): Bytes -> Read<Pair> {
    rest => ReadPair(rest, decode)
  }

  /** The table of the keys read, a later one replacing an earlier one of its name. */
  function Table(pairs: seq<Pair>): Keys {
    if pairs == [] then map[]
    else
      var last := pairs[|pairs| - 1];
      Table(pairs[..|pairs| - 1])[last.key := last]
  }

  function Dimension(rest: Bytes): Read<nat> {
    Number(rest, 8)
  }

  function Product(ns: seq<nat>): nat {
    if ns == [] then 1 else Product(ns[..|ns| - 1]) * ns[|ns| - 1]
  }

  /** A tensor's name, skipped, and the product of its dimensions. */
  function TensorShape(rest: Bytes): Read<nat> {
    var (nameLen, rest) :- Number(rest, 8);
    if nameLen > MAX_NAME_BYTES then Err(Bad(LongName)) else
    var (_, rest) :- Take(rest, nameLen);
    var (dims, rest) :- Number(rest, 4);
    if !(1 <= dims <= MAX_DIMS) then Err(Bad(Dimensions(dims))) else
    var read := Repeat(Dimension, rest, dims);
    var rest :- read.end;
    Ok((Product(read.values), rest))
  }

  /** Where one tensor's data ends, counted from the start of the data section. */
  function TensorEnd(rest: Bytes): Read<nat> {
    var (elements, rest) :- TensorShape(rest);
    var (kind, rest) :- Number(rest, 4);
    if Block(kind).None? then Err(Bad(TensorType(kind))) else
    var (offset, rest) :- Number(rest, 8);
    var end :- Measure(elements, Block(kind).value, offset);
    Ok((end, rest))
  }

  function Measure(elements: nat, block: (nat, nat), offset: nat): Result<nat, Stop>
    requires block.0 > 0
  {
    if elements > U64_MAX || elements % block.0 != 0 then Err(Bad(PartialBlocks))
    else
      var blocks: nat := elements / block.0;
      var end := offset + blocks * block.1;
      if end > U64_MAX then Err(Bad(PastTheEnd)) else Ok(end)
  }

  function Max(a: nat, b: nat): nat {
    if a >= b then a else b
  }

  function Largest(ends: seq<nat>): nat {
    if ends == [] then 0 else Max(Largest(ends[..|ends| - 1]), ends[|ends| - 1])
  }

  predicate UsableAlignment(a: nat) {
    a > 0 && BitAnd(a, a - 1) == 0
  }

  /** The end of the data the table describes in a file of `total` bytes of which `rest` remain. */
  function DataEnd(rest: Bytes, total: nat, count: nat, alignment: nat): Result<nat, Stop> {
    if !UsableAlignment(alignment) then Err(Bad(Alignment(alignment)))
    else
      var read := Repeat(TensorEnd, rest, count);
      var after :- read.end;
      Ok(AlignUp(Consumed(total, after), alignment) + Largest(read.values))
  }

  /** The position of a reader that has `rest` of `total` bytes left. */
  function Consumed(total: nat, rest: Bytes): nat {
    if |rest| <= total then total - |rest| else 0
  }

  function U32Of(kv: Keys, key: string): Option<nat> {
    if key in kv && kv[key].kind == U32 && kv[key].value.Scalar?
    then Some(LittleEndian(kv[key].value.raw)) else None
  }

  function FreshHead(bytesRead: nat): Head {
    Head(None, 0, map[], false, 32, None, false, None, bytesRead)
  }

  /** The head of a whole buffer. */
  function Parse(buf: Bytes, decode: Decoder): Head {
    var head := FreshHead(|buf|);
    match Take(buf, 4)
    case Err(stop) => head.Stopped(stop)
    case Ok((magic, rest)) =>
      if magic != MAGIC then head.(problem := Some(NotGguf))
      else ParseVersion(head, rest, decode)
  }

  function ParseVersion(head: Head, rest: Bytes, decode: Decoder): Head {
    match Number(rest, 4)
    case Err(stop) => head.Stopped(stop)
    case Ok((version, rest)) =>
      var head := head.(version := Some(version));
      if version !in {2, 3} then head.(problem := Some(BadVersion(version)))
      else ParseCounts(head, rest, decode)
  }

  function ParseCounts(head: Head, rest: Bytes, decode: Decoder): Head {
    match Number(rest, 8)
    case Err(stop) => head.Stopped(stop)
    case Ok((tensors, rest)) =>
      var head := head.(tensorCount := tensors);
      match Number(rest, 8)
      case Err(stop) => head.Stopped(stop)
      case Ok((pairs, rest)) => ParseKeys(head, rest, pairs, decode)
  }

  function ParseKeys(head: Head, rest: Bytes, pairs: nat, decode: Decoder): Head {
    var read := Repeat(PairReader(decode), rest, if pairs <= MAX_KVS then pairs else MAX_KVS);
    match read.end
    case Err(stop) => head.(kv := Table(read.values)).Stopped(stop)
    case Ok(rest) =>
      if pairs > MAX_KVS then head.(kv := Table(read.values), problem := Some(TooManyKeys))
      else ParseTensors(WithKeys(head, Table(read.values)), rest)
  }

  /** The head once every key is read: complete, with the alignment the keys give. */
  function WithKeys(head: Head, kv: Keys): Head {
    head.(kv := kv, kvComplete := true, alignment := U32Of(kv, "general.alignment").GetOr(32))
  }

  function ParseTensors(head: Head, rest: Bytes): Head {
    if head.tensorCount > MAX_TENSORS then head.(problem := Some(TooManyTensors)) else
    match DataEnd(rest, head.bytesRead, head.tensorCount, head.alignment)
    case Err(stop) => head.Stopped(stop)
    case Ok(end) => head.(dataEnd := Some(end))
  }
}
