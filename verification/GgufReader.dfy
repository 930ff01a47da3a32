/**
 The reader object and the loops of the header walk (scripts/models/vision_pairings.py), as
 the program runs them over one buffer. Each method is proved against the function of `Gguf`
 that says what it reads from the bytes that remain.
 */
module GgufReader {
  import opened Results
  import opened Bits
  import G = Gguf

  class Reader {
    const buf: G.Bytes
    var pos: nat

    ghost predicate Valid()
      reads this
    {
      pos <= |buf|
    }

    function Rest(): G.Bytes
      reads this
      requires Valid()
    {
      buf[pos..]
    }

    /** A method's answer is what `read` says, and on success the reader stands where it says. */
    ghost predicate Follows<T>(answer: Result<T, G.Stop>, read: G.Read<T>)
      reads this
      requires Valid()
    {
      match read
      case Err(stop) => answer == Err(stop)
      case Ok((value, rest)) => answer == Ok(value) && Rest() == rest
    }

    constructor (buf: G.Bytes)
      ensures Valid() && this.buf == buf && pos == 0 && Rest() == buf
    {
      this.buf := buf;
      pos := 0;
    }

    /** Never past the end, and a refused skip does not move. */
    method Skip(n: nat) returns (r: Result<(), G.Stop>)
      requires Valid()
      modifies this
      ensures Valid()
      ensures if old(pos) + n <= |buf| then r == Ok(()) && pos == old(pos) + n
              else r == Err(G.Short) && pos == old(pos)
    {
      if pos + n > |buf| {
        return Err(G.Short);
      }
      pos := pos + n;
      r := Ok(());
    }

    method Take(n: nat) returns (r: Result<G.Bytes, G.Stop>)
      requires Valid()
      modifies this
      ensures Valid() && Follows(r, G.Take(old(Rest()), n))
    {
      var start := pos;
      var skipped := Skip(n);
      if skipped.Err? {
        return Err(skipped.error);
      }
      assert buf[start..][..n] == buf[start..pos] && buf[start..][n..] == buf[pos..];
      r := Ok(buf[start..pos]);
    }

    method Number(width: nat) returns (r: Result<nat, G.Stop>)
      requires Valid()
      modifies this
      ensures Valid() && Follows(r, G.Number(old(Rest()), width))
    {
      var bs :- Take(width);
      r := Ok(G.LittleEndian(bs));
    }

    method Chars() returns (r: Result<G.Bytes, G.Stop>)
      requires Valid()
      modifies this
      ensures Valid() && Follows(r, G.Chars(old(Rest())))
    {
      var n :- Number(8);
      r := Take(n);
    }

    method SkipTexts(count: nat) returns (r: Result<(), G.Stop>)
      requires Valid()
      modifies this
      ensures Valid()
      ensures match G.Repeat(G.Chars, old(Rest()), count).end
              case Err(stop) => r == Err(stop)
              case Ok(rest) => r == Ok(()) && Rest() == rest
    {
      hide G.Number, G.Take;
      for i := 0 to count
        invariant Valid()
        invariant G.Repeat(G.Chars, old(Rest()), count).end == G.Repeat(G.Chars, Rest(), count - i).end
      {
        RepeatStep(G.Chars, Rest(), count - i, []);
        var _ :- Chars();
      }
      r := Ok(());
    }

    method SkipArray() returns (r: Result<(), G.Stop>)
      requires Valid()
      modifies this
      ensures Valid() && Follows(r, G.SkipArray(old(Rest())))
    {
      var elem :- Number(4);
      var count :- Number(8);
      if elem == G.STRING {
        r := SkipTexts(count);
      } else if G.ScalarWidth(elem).Some? {
        var _ :- Take(G.ScalarWidth(elem).value * count);
        r := Ok(());
      } else {
        r := Err(G.Bad(G.ArrayOf(elem)));
      }
    }

    method Value(kind: nat, decode: G.Decoder) returns (r: Result<G.Value, G.Stop>)
      requires Valid()
      modifies this
      ensures Valid() && Follows(r, G.ReadValue(old(Rest()), kind, decode))
    {
      if kind == G.STRING {
        var bs :- Chars();
        return Ok(G.Text(decode(bs)));
      }
      if kind == G.ARRAY {
        var _ :- SkipArray();
        return Ok(G.Skipped);
      }
      if G.ScalarWidth(kind).None? {
        return Err(G.Bad(G.ValueType(kind)));
      }
      var raw :- Take(G.ScalarWidth(kind).value);
      r := Ok(G.Scalar(raw));
    }

    method Pair(decode: G.Decoder) returns (r: Result<G.Pair, G.Stop>)
      requires Valid()
      modifies this
      ensures Valid() && Follows(r, G.PairReader(decode)(old(Rest())))
    {
      var key :- Chars();
      var kind :- Number(4);
      var value :- Value(kind, decode);
      r := Ok(G.Pair(decode(key), kind, value));
    }

    method Elements(dims: nat) returns (r: Result<nat, G.Stop>)
      requires Valid()
      modifies this
      ensures Valid()
      ensures var read := G.Repeat(G.Dimension, old(Rest()), dims);
        match read.end
        case Err(stop) => r == Err(stop)
        case Ok(rest) => r == Ok(G.Product(read.values)) && Rest() == rest
    {
      hide G.Repeat, G.Number, G.Product;
      var elements: nat := 1;
      ghost var ns: seq<nat> := [];
      NoneYet(Rest(), dims);
      for i := 0 to dims
        invariant Valid()
        invariant elements == G.Product(ns)
        invariant G.Repeat(G.Dimension, old(Rest()), dims)
               == G.Repeat(G.Dimension, Rest(), dims - i).After(ns)
      {
        RepeatStep(G.Dimension, Rest(), dims - i, ns);
        var n :- Number(8);
        ProductOfLonger(ns, n);
        ns := ns + [n];
        elements := elements * n;
      }
      NoneLeft(Rest(), ns);
      r := Ok(elements);
    }

    method TensorEnd() returns (r: Result<nat, G.Stop>)
      requires Valid()
      modifies this
      ensures Valid() && Follows(r, G.TensorEnd(old(Rest())))
    {
      var nameLen :- Number(8);
      if nameLen > G.MAX_NAME_BYTES {
        return Err(G.Bad(G.LongName));
      }
      var _ :- Take(nameLen);
      var dims :- Number(4);
      if !(1 <= dims <= G.MAX_DIMS) {
        return Err(G.Bad(G.Dimensions(dims)));
      }
      var elements :- Elements(dims);
      var kind :- Number(4);
      if G.Block(kind).None? {
        return Err(G.Bad(G.TensorType(kind)));
      }
      var offset :- Number(8);
      r := G.Measure(elements, G.Block(kind).value, offset);
    }

    method LargestEnd(count: nat) returns (r: Result<nat, G.Stop>)
      requires Valid()
      modifies this
      ensures Valid()
      ensures var read := G.Repeat(G.TensorEnd, old(Rest()), count);
        match read.end
        case Err(stop) => r == Err(stop)
        case Ok(rest) => r == Ok(G.Largest(read.values)) && Rest() == rest
    {
      var end := 0;
      ghost var ends: seq<nat> := [];
      for i := 0 to count
        invariant Valid()
        invariant end == G.Largest(ends)
        invariant G.Repeat(G.TensorEnd, old(Rest()), count)
               == G.Repeat(G.TensorEnd, Rest(), count - i).After(ends)
      {
        RepeatStep(G.TensorEnd, Rest(), count - i, ends);
        var e :- TensorEnd();
        assert (ends + [e])[..|ends|] == ends;
        ends := ends + [e];
        end := G.Max(end, e);
      }
      assert ends + [] == ends;
      r := Ok(end);
    }

    /** The end of the tensor data, measured from where the reader stands. */
    method DataEnd(count: nat, alignment: nat) returns (r: Result<nat, G.Stop>)
      requires Valid()
      modifies this
      ensures Valid() && r == G.DataEnd(old(Rest()), |buf|, count, alignment)
    {
      hide G.DataEnd, G.Repeat, G.TensorEnd, G.Largest, AlignUp;
      DataEndOf(Rest(), |buf|, count, alignment);
      if !G.UsableAlignment(alignment) {
        return Err(G.Bad(G.Alignment(alignment)));
      }
      hide G.UsableAlignment;
      ghost var read := G.Repeat(G.TensorEnd, Rest(), count);
      var end := LargestEnd(count);
      if end.Err? {
        return Err(end.error);
      }
      assert read.end == Ok(Rest()) && end.value == G.Largest(read.values);
      assert G.Consumed(|buf|, Rest()) == pos;
      r := Ok(AlignUp(pos, alignment) + end.value);
    }

    /** The key table, kept as far as it was read when the walk stops. */
    method Pairs(count: nat, decode: G.Decoder) returns (kv: G.Keys, r: Result<(), G.Stop>)
      requires Valid()
      modifies this
      ensures Valid()
      ensures kv == G.Table(G.Repeat(G.PairReader(decode), old(Rest()), count).values)
      ensures match G.Repeat(G.PairReader(decode), old(Rest()), count).end
              case Err(stop) => r == Err(stop)
              case Ok(rest) => r == Ok(()) && Rest() == rest
    {
      kv := map[];
      ghost var pairs: seq<G.Pair> := [];
      for i := 0 to count
        invariant Valid()
        invariant kv == G.Table(pairs)
        invariant G.Repeat(G.PairReader(decode), old(Rest()), count)
               == G.Repeat(G.PairReader(decode), Rest(), count - i).After(pairs)
      {
        RepeatStep(G.PairReader(decode), Rest(), count - i, pairs);
        assert pairs + [] == pairs;
        var pair := Pair(decode);
        if pair.Err? {
          return kv, Err(pair.error);
        }
        assert (pairs + [pair.value])[..|pairs|] == pairs;
        pairs := pairs + [pair.value];
        kv := kv[pair.value.key := pair.value];
      }
      assert pairs + [] == pairs;
      r := Ok(());
    }
  }

  /** The end of the data, by the walk over the tensors. */
  lemma DataEndOf(rest: G.Bytes, total: nat, count: nat, alignment: nat)
    ensures var read := G.Repeat(G.TensorEnd, rest, count);
      G.DataEnd(rest, total, count, alignment) ==
        if !G.UsableAlignment(alignment) then Err(G.Bad(G.Alignment(alignment)))
        else if read.end.Err? then Err(read.end.error)
        else Ok(AlignUp(G.Consumed(total, read.end.value), alignment) + G.Largest(read.values))
  {
    hide G.Repeat, G.TensorEnd, G.Largest, AlignUp;
  }

  lemma NoneYet(rest: G.Bytes, dims: nat)
    ensures G.Product([]) == 1
    ensures G.Repeat(G.Dimension, rest, dims) == G.Repeat(G.Dimension, rest, dims).After([])
  {
    hide G.Dimension;
    var read := G.Repeat(G.Dimension, rest, dims);
    assert [] + read.values == read.values;
  }

  lemma NoneLeft(rest: G.Bytes, ns: seq<nat>)
    ensures G.Repeat(G.Dimension, rest, 0).After(ns) == G.Many(ns, Ok(rest))
  {
    assert ns + [] == ns;
  }

  lemma ProductOfLonger(ns: seq<nat>, n: nat)
    ensures G.Product(ns + [n]) == G.Product(ns) * n
  {
    assert (ns + [n])[..|ns|] == ns;
  }

  /** One read of a repeated one, behind the values already in hand. */
  lemma RepeatStep<T>(read: G.Bytes -> G.Read<T>, rest: G.Bytes, count: nat, done: seq<T>)
    requires count > 0
    ensures G.Repeat(read, rest, count).After(done) ==
      match read(rest)
      case Err(stop) => G.Many(done, Err(stop))
      case Ok((value, after)) => G.Repeat(read, after, count - 1).After(done + [value])
  {
    match read(rest)
    case Err(stop) => assert done + [] == done;
    case Ok((value, after)) =>
      var tail := G.Repeat(read, after, count - 1).values;
      assert done + ([value] + tail) == (done + [value]) + tail;
  }

  /** Walk a header as far as the buffer goes; no input makes it fail. */
  method ParseGguf(buf: G.Bytes, decode: G.Decoder) returns (head: G.Head)
    ensures head == G.Parse(buf, decode)
  {
    head := G.FreshHead(|buf|);
    var r := new Reader(buf);
    var magic := r.Take(4);
    if magic.Err? {
      return head.Stopped(magic.error);
    }
    if magic.value != G.MAGIC {
      return head.(problem := Some(G.NotGguf));
    }
    var version := r.Number(4);
    if version.Err? {
      return head.Stopped(version.error);
    }
    head := head.(version := Some(version.value));
    if version.value !in {2, 3} {
      return head.(problem := Some(G.BadVersion(version.value)));
    }
    var tensors := r.Number(8);
    if tensors.Err? {
      return head.Stopped(tensors.error);
    }
    head := head.(tensorCount := tensors.value);
    var pairs := r.Number(8);
    if pairs.Err? {
      return head.Stopped(pairs.error);
    }
    var kv, read := r.Pairs(if pairs.value <= G.MAX_KVS then pairs.value else G.MAX_KVS, decode);
    if read.Err? {
      return head.(kv := kv).Stopped(read.error);
    }
    if pairs.value > G.MAX_KVS {
      return head.(kv := kv, problem := Some(G.TooManyKeys));
    }
    head := G.WithKeys(head, kv);
    if head.tensorCount > G.MAX_TENSORS {
      return head.(problem := Some(G.TooManyTensors));
    }
    var end := r.DataEnd(head.tensorCount, head.alignment);
    if end.Err? {
      return head.Stopped(end.error);
    }
    head := head.(dataEnd := Some(end.value));
  }
}
