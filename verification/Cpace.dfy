/**
 CPace between the phone (scripts/pond_cpace.py, `Responder`) and the Pond
 (crates/pond-infra/src/pairing_cpace.rs, `Initiator`). The curve, the hash and the MAC are
 parameters: what is assumed of the curve is that its points stand for a commutative group and
 that RFC 9496 encodes each group element in exactly one way.
 */
module Cpace {
  import opened Results
  import opened Encoding

  /** The operations the protocol calls: points are representatives of group elements. */
  datatype Suite<!R> = Suite(
    add: (R, R) -> R,
    identity: R,
    encode: R -> Bytes,
    decode: Bytes -> Option<R>,
    element: Bytes -> R,
    sha512: Bytes -> Bytes,
    hmac: (Bytes, Bytes) -> Bytes)

  /** What points stand for. */
  datatype Group<!R, !G> = Group(value: R -> G, plus: (G, G) -> G, zero: G)

  /** `add` adds in a commutative group, and encodings are canonical (RFC 9496, section 4.3). */
  ghost predicate Lawful<R(!new), G(!new)>(s: Suite<R>, g: Group<R, G>) {
    && (forall x, y :: g.plus(x, y) == g.plus(y, x))
    && (forall x, y, z :: g.plus(g.plus(x, y), z) == g.plus(x, g.plus(y, z)))
    && (forall x :: g.plus(g.zero, x) == x)
    && (forall p, q :: g.value(s.add(p, q)) == g.plus(g.value(p), g.value(q)))
    && g.value(s.identity) == g.zero
    && (forall p, q :: s.encode(p) == s.encode(q) <==> g.value(p) == g.value(q))
    && (forall p :: s.decode(s.encode(p)).Some? && s.encode(s.decode(s.encode(p)).value) == s.encode(p))
    && s.encode(s.identity) == Zeros(32)
  }

  // ----- Scalar multiples -----------------------------------------------------

  /** `k` copies of `x` summed. */
  ghost function Times<R(!new), G(!new)>(g: Group<R, G>, k: nat, x: G): G {
    if k == 0 then g.zero else g.plus(x, Times(g, k - 1, x))
  }

  /** The same on points, one addition at a time. */
  function Product<R>(s: Suite<R>, k: nat, p: R): R {
    if k == 0 then s.identity else s.add(p, Product(s, k - 1, p))
  }

  // The laws one at a time, so that proofs can leave the rest alone.

  lemma Commute<R(!new), G(!new)>(s: Suite<R>, g: Group<R, G>, x: G, y: G)
    requires Lawful(s, g)
    ensures g.plus(x, y) == g.plus(y, x)
  {
  }

  lemma Regroup<R(!new), G(!new)>(s: Suite<R>, g: Group<R, G>, x: G, y: G, z: G)
    requires Lawful(s, g)
    ensures g.plus(g.plus(x, y), z) == g.plus(x, g.plus(y, z))
  {
  }

  lemma ZeroIsNeutral<R(!new), G(!new)>(s: Suite<R>, g: Group<R, G>, x: G)
    requires Lawful(s, g)
    ensures g.plus(g.zero, x) == x && g.value(s.identity) == g.zero
  {
  }

  lemma AddAdds<R(!new), G(!new)>(s: Suite<R>, g: Group<R, G>, p: R, q: R)
    requires Lawful(s, g)
    ensures g.value(s.add(p, q)) == g.plus(g.value(p), g.value(q))
  {
  }

  lemma OneEncoding<R(!new), G(!new)>(s: Suite<R>, g: Group<R, G>, p: R, q: R)
    requires Lawful(s, g)
    ensures s.encode(p) == s.encode(q) <==> g.value(p) == g.value(q)
  {
  }

  lemma DecodesBack<R(!new), G(!new)>(s: Suite<R>, g: Group<R, G>, p: R)
    requires Lawful(s, g)
    ensures s.decode(s.encode(p)).Some? && s.encode(s.decode(s.encode(p)).value) == s.encode(p)
  {
  }

  lemma IdentityEncodesToZeros<R(!new), G(!new)>(s: Suite<R>, g: Group<R, G>, p: R)
    requires Lawful(s, g)
    ensures s.encode(p) == Zeros(32) <==> g.value(p) == g.zero
  {
    hide Zeros;
    OneEncoding(s, g, p, s.identity);
  }

  lemma {:induction false} ProductIsTimes<R(!new), G(!new)>(s: Suite<R>, g: Group<R, G>, k: nat, p: R)
    requires Lawful(s, g)
    ensures g.value(Product(s, k, p)) == Times(g, k, g.value(p))
  {
    hide Lawful;
    if k == 0 {
      ZeroIsNeutral(s, g, g.zero);
    } else {
      ProductIsTimes(s, g, k - 1, p);
      AddAdds(s, g, p, Product(s, k - 1, p));
    }
  }

  lemma {:induction false} TimesOfSum<R(!new), G(!new)>(s: Suite<R>, g: Group<R, G>, j: nat, k: nat, x: G)
    requires Lawful(s, g)
    ensures Times(g, j + k, x) == g.plus(Times(g, j, x), Times(g, k, x))
  {
    hide Lawful;
    if j == 0 {
      ZeroIsNeutral(s, g, Times(g, k, x));
    } else {
      TimesOfSum(s, g, j - 1, k, x);
      Regroup(s, g, x, Times(g, j - 1, x), Times(g, k, x));
    }
  }

  lemma {:induction false} TimesOfDouble<R(!new), G(!new)>(s: Suite<R>, g: Group<R, G>, k: nat, x: G)
    requires Lawful(s, g)
    ensures Times(g, k, g.plus(x, x)) == Times(g, 2 * k, x)
  {
    hide Lawful;
    if k > 0 {
      TimesOfDouble(s, g, k - 1, x);
      assert Times(g, 2 * k - 1, x) == g.plus(x, Times(g, 2 * (k - 1), x));
      Regroup(s, g, x, x, Times(g, 2 * (k - 1), x));
    }
  }

  lemma {:induction false} TimesOfTimes<R(!new), G(!new)>(s: Suite<R>, g: Group<R, G>, j: nat, k: nat, x: G)
    requires Lawful(s, g)
    ensures j * k >= 0 && Times(g, j, Times(g, k, x)) == Times(g, j * k, x)
  {
    hide Lawful;
    if j > 0 {
      TimesOfTimes(s, g, j - 1, k, x);
      TimesOfSum(s, g, k, (j - 1) * k, x);
      assert k + (j - 1) * k == j * k;
    }
  }

  /** Multiplying by one scalar and then another does not depend on the order. */
  lemma TimesCommutes<R(!new), G(!new)>(s: Suite<R>, g: Group<R, G>, j: nat, k: nat, x: G)
    requires Lawful(s, g)
    ensures Times(g, j, Times(g, k, x)) == Times(g, k, Times(g, j, x))
  {
    hide Lawful, Times;
    TimesOfTimes(s, g, j, k, x);
    TimesOfTimes(s, g, k, j, x);
    assert j * k == k * j;
  }

  /** Double-and-add: the fast form of `Product`, up to the choice of representative. */
  method Mul<R(!new), G(!new)>(s: Suite<R>, ghost g: Group<R, G>, scalar: nat, point: R) returns (result: R)
    requires Lawful(s, g)
    ensures g.value(result) == Times(g, scalar, g.value(point))
    ensures s.encode(result) == s.encode(Product(s, scalar, point))
  {
    hide Lawful;
    ZeroIsNeutral(s, g, Times(g, scalar, g.value(point)));
    result := s.identity;
    var k, p := scalar, point;
    while k > 0
      invariant g.plus(g.value(result), Times(g, k, g.value(p))) == Times(g, scalar, g.value(point))
    {
      MulStep(s, g, result, k, p);
      if k % 2 == 1 {
        result := s.add(result, p);
      }
      p := s.add(p, p);
      k := k / 2;
    }
    Commute(s, g, g.value(result), g.zero);
    ZeroIsNeutral(s, g, g.value(result));
    ProductIsTimes(s, g, scalar, point);
    OneEncoding(s, g, result, Product(s, scalar, point));
  }

  lemma MulStep<R(!new), G(!new)>(s: Suite<R>, g: Group<R, G>, result: R, k: nat, p: R)
    requires Lawful(s, g) && k > 0
    ensures g.plus(g.value(result), Times(g, k, g.value(p))) ==
      g.plus(g.value(if k % 2 == 1 then s.add(result, p) else result), Times(g, k / 2, g.value(s.add(p, p))))
  {
    hide Lawful;
    var x, half := g.value(p), k / 2;
    TimesOfDouble(s, g, half, x);
    AddAdds(s, g, p, p);
    if k % 2 == 1 {
      assert k == 2 * half + 1;
      assert Times(g, k, x) == g.plus(x, Times(g, 2 * half, x));
      AddAdds(s, g, result, p);
      Regroup(s, g, g.value(result), x, Times(g, 2 * half, x));
    } else {
      assert k == 2 * half;
    }
  }

  // ----- The shared point -----------------------------------------------------

  function Nonzero(k: Bytes): Option<Bytes> {
    if k == Zeros(32) then None else Some(k)
  }

  /** The encoded product, unless the share does not decode or the product is the identity. */
  function SharedPoint<R>(s: Suite<R>, scalar: nat, share: Bytes): Option<Bytes> {
    var point := s.decode(share);
    if point.None? then None else Nonzero(s.encode(Product(s, scalar, point.value)))
  }

  method ScalarMultVfy<R(!new), G(!new)>(s: Suite<R>, ghost g: Group<R, G>, scalar: nat, share: Bytes)
    returns (r: Option<Bytes>)
    requires Lawful(s, g)
    ensures r == SharedPoint(s, scalar, share)
    ensures r.Some? <==>
      s.decode(share).Some? && Times(g, scalar, g.value(s.decode(share).value)) != g.zero
  {
    hide Lawful, Zeros;
    var point := s.decode(share);
    if point.None? {
      return None;
    }
    var product := Mul(s, g, scalar, point.value);
    IdentityEncodesToZeros(s, g, product);
    var k := s.encode(product);
    return if k == Zeros(32) then None else Some(k);
  }

  /** Both ends reach the same point, or both refuse, and that only at the identity. */
  lemma SharedPointAgrees<R(!new), G(!new)>(s: Suite<R>, g: Group<R, G>, a: nat, b: nat, base: R)
    requires Lawful(s, g)
    ensures var ya, yb := s.encode(Product(s, a, base)), s.encode(Product(s, b, base));
      && SharedPoint(s, a, yb) == SharedPoint(s, b, ya)
      && (SharedPoint(s, a, yb).Some? <==> Times(g, a, Times(g, b, g.value(base))) != g.zero)
  {
    hide Lawful, Times, Product, Nonzero;
    var pa := PeerPoint(s, g, a, b, base);
    var pb := PeerPoint(s, g, b, a, base);
    TimesCommutes(s, g, a, b, g.value(base));
    OneEncoding(s, g, Product(s, a, pa), Product(s, b, pb));
    NonzeroIsSome(s, g, Product(s, a, pa));
  }

  lemma NonzeroIsSome<R(!new), G(!new)>(s: Suite<R>, g: Group<R, G>, p: R)
    requires Lawful(s, g)
    ensures Nonzero(s.encode(p)).Some? <==> g.value(p) != g.zero
  {
    hide Lawful, Zeros;
    IdentityEncodesToZeros(s, g, p);
  }

  /** The point the holder of `a` decodes from the other's share, and what comes of it. */
  lemma PeerPoint<R(!new), G(!new)>(s: Suite<R>, g: Group<R, G>, a: nat, b: nat, base: R) returns (point: R)
    requires Lawful(s, g)
    ensures s.decode(s.encode(Product(s, b, base))) == Some(point)
    ensures g.value(Product(s, a, point)) == Times(g, a, Times(g, b, g.value(base)))
  {
    hide Lawful, Times, Product;
    var sent := Product(s, b, base);
    DecodesBack(s, g, sent);
    point := s.decode(s.encode(sent)).value;
    OneEncoding(s, g, point, sent);
    ProductIsTimes(s, g, a, point);
    ProductIsTimes(s, g, b, base);
  }

  // ----- The key schedule -----------------------------------------------------

  /** What both ends keep of a run. */
  datatype Confirmation = Confirmation(sid: Bytes, ya: Bytes, yb: Bytes, isk: Bytes, macKey: Bytes)

  function IskInput(sid: Bytes, k: Bytes, ya: Bytes, yb: Bytes): Bytes {
    LvCat([DSI_ISK, sid, k]) + LvCat([ya, []]) + LvCat([yb, []])
  }

  function MacInput(sid: Bytes, isk: Bytes): Bytes {
    MAC_PREFIX + sid + isk
  }

  function TagInput(tag: Bytes, ya: Bytes, yb: Bytes): Bytes {
    LvCat([tag, ya, [], yb, []])
  }

  function Derive<R>(s: Suite<R>, sid: Bytes, k: Bytes, ya: Bytes, yb: Bytes): Confirmation {
    var isk := s.sha512(IskInput(sid, k, ya, yb));
    Confirmation(sid, ya, yb, isk, s.sha512(MacInput(sid, isk)))
  }

  function Tag<R>(s: Suite<R>, c: Confirmation, tag: Bytes): Bytes {
    s.hmac(c.macKey, TagInput(tag, c.ya, c.yb))
  }

  function Generator<R>(s: Suite<R>, prs: Bytes, ci: Bytes, sid: Bytes): R {
    s.element(s.sha512(GeneratorString(prs, ci, sid)))
  }

  // ----- The two ends ---------------------------------------------------------

  datatype CpaceError = InvalidShare | InvalidConfirmation

  /** One phone-side run. */
  class Responder<R(!new)> {
    const suite: Suite<R>
    const ci: Bytes
    const share: Bytes
    const k: Bytes
    const confirmation: Confirmation

    constructor (suite: Suite<R>, ci: Bytes, share: Bytes, k: Bytes, confirmation: Confirmation)
      ensures this.suite == suite && this.ci == ci && this.share == share && this.k == k
      ensures this.confirmation == confirmation
    {
      this.suite, this.ci, this.share, this.k, this.confirmation := suite, ci, share, k, confirmation;
    }

    method Confirm() returns (tag: Bytes)
      ensures tag == Tag(suite, confirmation, CLIENT_TAG_LABEL)
    {
      tag := Tag(suite, confirmation, CLIENT_TAG_LABEL);
    }

    method VerifyServer(tag: Bytes) returns (ok: bool)
      ensures ok <==> tag == Tag(suite, confirmation, SERVER_TAG_LABEL)
    {
      ok := Tag(suite, confirmation, SERVER_TAG_LABEL) == tag;
    }
  }

  /** The share the phone answers with and what it derives, None for an invalid share. */
  function Answer<R>(
    s: Suite<R>, code: Bytes, ci: Bytes, sid: Bytes, ya: Bytes, scalar: nat): Option<(Bytes, Confirmation)>
  {
    var share := s.encode(Product(s, scalar, Generator(s, code, ci, sid)));
    var k := SharedPoint(s, scalar, ya);
    if k.None? then None else Some((share, Derive(s, sid, k.value, ya, share)))
  }

  method Respond<R(!new), G(!new)>(
      s: Suite<R>, ghost g: Group<R, G>, code: Bytes, pin: Bytes, client: Bytes, challenge: Bytes, nonce: Bytes,
      ya: Bytes, scalar: nat, credential: Credential)
    returns (r: Option<Responder<R>>)
    requires Lawful(s, g)
    ensures var answer := Answer(s, code, ChannelIdentifier(pin, client, credential), challenge + nonce, ya, scalar);
      && (r.Some? <==> answer.Some?)
      && (r.Some? ==> r.value.suite == s && (r.value.share, r.value.confirmation) == answer.value)
  {
    var ci := ChannelIdentifier(pin, client, credential);
    var sid := challenge + nonce;
    var own := Mul(s, g, scalar, Generator(s, code, ci, sid));
    var share := s.encode(own);
    var k := ScalarMultVfy(s, g, scalar, ya);
    if k.None? {
      return None;
    }
    var responder := new Responder(s, ci, share, k.value, Derive(s, sid, k.value, ya, share));
    return Some(responder);
  }

  /** The Pond's half of one run. */
  class Initiator<R(!new)> {
    const suite: Suite<R>
    const scalar: nat
    const share: Bytes
    const sid: Bytes

    constructor <G(!new)>(
        s: Suite<R>, ghost g: Group<R, G>, scalar: nat, prs: Bytes, ci: Bytes, sid: Bytes)
      requires Lawful(s, g)
      ensures suite == s && this.scalar == scalar && this.sid == sid
      ensures share == Offer(s, scalar, prs, ci, sid)
    {
      var own := Mul(s, g, scalar, Generator(s, prs, ci, sid));
      this.suite, this.scalar, this.sid, this.share := s, scalar, sid, s.encode(own);
    }

    method Finish<G(!new)>(ghost g: Group<R, G>, yb: Bytes, clientTag: Bytes)
      returns (r: Result<(Bytes, Confirmation), CpaceError>)
      requires Lawful(suite, g)
      ensures r == Finished(suite, scalar, share, sid, yb, clientTag)
    {
      var k := ScalarMultVfy(suite, g, scalar, yb);
      if k.None? {
        return Err(InvalidShare);
      }
      var confirmation := Derive(suite, sid, k.value, share, yb);
      if Tag(suite, confirmation, CLIENT_TAG_LABEL) != clientTag {
        return Err(InvalidConfirmation);
      }
      return Ok((Tag(suite, confirmation, SERVER_TAG_LABEL), confirmation));
    }
  }

  /** The Pond's share, for the challenge. */
  function Offer<R>(s: Suite<R>, scalar: nat, prs: Bytes, ci: Bytes, sid: Bytes): Bytes {
    s.encode(Product(s, scalar, Generator(s, prs, ci, sid)))
  }

  /** The Pond's answer to the phone's share and tag: its own tag, and what it derives. */
  function Finished<R>(
    s: Suite<R>, scalar: nat, share: Bytes, sid: Bytes, yb: Bytes, clientTag: Bytes)
    : Result<(Bytes, Confirmation), CpaceError>
  {
    var k := SharedPoint(s, scalar, yb);
    if k.None? then Err(InvalidShare)
    else
      var confirmation := Derive(s, sid, k.value, share, yb);
      if Tag(s, confirmation, CLIENT_TAG_LABEL) != clientTag then Err(InvalidConfirmation)
      else Ok((Tag(s, confirmation, SERVER_TAG_LABEL), confirmation))
  }

  // ----- What a run promises --------------------------------------------------

  /**
   With the same secret, channel and session at both ends the run succeeds, unless the scalars
   take the generator to the identity: both derive the same keys and accept each other's tags.
   */
  lemma HonestRunAgrees<R(!new), G(!new)>(
    s: Suite<R>, g: Group<R, G>, prs: Bytes, ci: Bytes, sid: Bytes, a: nat, b: nat)
    requires Lawful(s, g)
    ensures var ya := Offer(s, a, prs, ci, sid);
      var answer := Answer(s, prs, ci, sid, ya, b);
      && (answer.None? <==> Times(g, a, Times(g, b, g.value(Generator(s, prs, ci, sid)))) == g.zero)
      && (answer.Some? ==>
          var (yb, phone) := answer.value;
          Finished(s, a, ya, sid, yb, Tag(s, phone, CLIENT_TAG_LABEL))
            == Ok((Tag(s, phone, SERVER_TAG_LABEL), phone)))
  {
    hide Lawful, Product, Times, Tag, IskInput, MacInput, Generator, Nonzero, SharedPoint;
    SharedPointAgrees(s, g, a, b, Generator(s, prs, ci, sid));
  }

  ghost predicate IsPrime(q: nat) {
    q > 1 && forall d: nat :: 1 < d < q ==> q % d != 0
  }

  lemma {:induction false} TimesOfZero<R(!new), G(!new)>(s: Suite<R>, g: Group<R, G>, k: nat)
    requires Lawful(s, g)
    ensures Times(g, k, g.zero) == g.zero
  {
    hide Lawful;
    if k > 0 {
      TimesOfZero(s, g, k - 1);
      ZeroIsNeutral(s, g, g.zero);
    }
  }

  /** In a group of prime order only zero is taken to zero by a smaller scalar. */
  lemma {:induction false} NoSmallerOrder<R(!new), G(!new)>(s: Suite<R>, g: Group<R, G>, q: nat, n: nat, x: G)
    requires Lawful(s, g) && IsPrime(q) && 0 < n < q
    requires Times(g, q, x) == g.zero && Times(g, n, x) == g.zero
    ensures x == g.zero
    decreases n
  {
    hide Lawful;
    if n == 1 {
      Commute(s, g, x, g.zero);
      ZeroIsNeutral(s, g, x);
      assert Times(g, 0, x) == g.zero;
    } else {
      var d, r := q / n, q % n;
      assert q == d * n + r;
      TimesOfSum(s, g, d * n, r, x);
      TimesOfTimes(s, g, d, n, x);
      TimesOfZero(s, g, d);
      ZeroIsNeutral(s, g, Times(g, r, x));
      NoSmallerOrder(s, g, q, r, x);
    }
  }

  /**
   In a group of prime order, with scalars as both ends sample them, the honest run fails only
   on a generator that is the zero element; otherwise both ends accept and hold the same keys.
   */
  lemma HonestRunSucceeds<R(!new), G(!new)>(
    s: Suite<R>, g: Group<R, G>, q: nat, prs: Bytes, ci: Bytes, sid: Bytes, a: nat, b: nat)
    requires Lawful(s, g) && IsPrime(q) && (forall x :: Times(g, q, x) == g.zero)
    requires 0 < a < q && 0 < b < q
    ensures var ya := Offer(s, a, prs, ci, sid);
      var answer := Answer(s, prs, ci, sid, ya, b);
      && (answer.None? <==> g.value(Generator(s, prs, ci, sid)) == g.zero)
      && (answer.Some? ==>
          var (yb, phone) := answer.value;
          Finished(s, a, ya, sid, yb, Tag(s, phone, CLIENT_TAG_LABEL))
            == Ok((Tag(s, phone, SERVER_TAG_LABEL), phone)))
  {
    hide Lawful, Times, Offer, Answer, Finished, Tag, Generator, IsPrime;
    var x := g.value(Generator(s, prs, ci, sid));
    HonestRunAgrees(s, g, prs, ci, sid, a, b);
    if x == g.zero {
      TimesOfZero(s, g, b);
      TimesOfZero(s, g, a);
    } else if Times(g, a, Times(g, b, x)) == g.zero {
      NoSmallerOrder(s, g, q, a, Times(g, b, x));
      NoSmallerOrder(s, g, q, b, x);
    }
  }

  /** Two different inputs with one output. */
  ghost predicate Collides<T(!new), U>(f: T -> U, x: T, y: T) {
    x != y && f(x) == f(y)
  }

  lemma IskInputIsInjective(
    sid: Bytes, k: Bytes, ya: Bytes, yb: Bytes, sid': Bytes, k': Bytes, ya': Bytes, yb': Bytes)
    requires IskInput(sid, k, ya, yb) == IskInput(sid', k', ya', yb')
    ensures sid == sid' && k == k' && ya == ya' && yb == yb'
  {
    hide LvCat;
    var first, first' := [DSI_ISK, sid, k], [DSI_ISK, sid', k'];
    var second, second' := [ya, []], [ya', []];
    var third, third' := [yb, []], [yb', []];
    assert IskInput(sid, k, ya, yb) == LvCat(first) + (LvCat(second) + LvCat(third));
    assert IskInput(sid', k', ya', yb') == LvCat(first') + (LvCat(second') + LvCat(third'));
    LvCatIsInjective(first, first', LvCat(second) + LvCat(third), LvCat(second') + LvCat(third'));
    LvCatIsInjective(second, second', LvCat(third), LvCat(third'));
    LvCatAlone(third, third');
    assert first[1] == first'[1] && first[2] == first'[2] && second[0] == second'[0] && third[0] == third'[0];
  }

  lemma TagInputIsInjective(tag: Bytes, ya: Bytes, yb: Bytes, tag': Bytes, ya': Bytes, yb': Bytes)
    requires TagInput(tag, ya, yb) == TagInput(tag', ya', yb')
    ensures tag == tag' && ya == ya' && yb == yb'
  {
    hide LvCat;
    var ps, qs := [tag, ya, [], yb, []], [tag', ya', [], yb', []];
    LvCatAlone(ps, qs);
    assert ps[0] == qs[0] && ps[1] == qs[1] && ps[3] == qs[3];
  }

  /** The session is not length-prefixed here; the digest behind it has one length, so it can be. */
  lemma MacInputIsInjective(sid: Bytes, isk: Bytes, sid': Bytes, isk': Bytes)
    requires |isk| == |isk'| && MacInput(sid, isk) == MacInput(sid', isk')
    ensures sid == sid' && isk == isk'
  {
    var x, y := MacInput(sid, isk), MacInput(sid', isk');
    assert |sid| == |sid'|;
    assert sid == x[|MAC_PREFIX|..|MAC_PREFIX| + |sid|] && sid' == y[|MAC_PREFIX|..|MAC_PREFIX| + |sid'|];
    assert isk == x[|MAC_PREFIX| + |sid|..] && isk' == y[|MAC_PREFIX| + |sid'|..];
  }

  /** One of the three hashes behind the tags of two runs meets itself. */
  ghost predicate TagsCollide<R(!new)>(
    s: Suite<R>, tag: Bytes, k: Bytes, c: Confirmation, tag': Bytes, k': Bytes, c': Confirmation)
  {
    || Collides(s.sha512, IskInput(c.sid, k, c.ya, c.yb), IskInput(c'.sid, k', c'.ya, c'.yb))
    || Collides(s.sha512, MacInput(c.sid, c.isk), MacInput(c'.sid, c'.isk))
    || Collides((m: (Bytes, Bytes)) => s.hmac(m.0, m.1),
                (c.macKey, TagInput(tag, c.ya, c.yb)), (c'.macKey, TagInput(tag', c'.ya, c'.yb)))
  }

  /**
   A tag that one run accepts and another made means that the two agree on the session, both
   shares and the shared point, and that it is the same one of the two tags; anything else is a
   collision of SHA-512 or of HMAC, at inputs the two runs computed.
   */
  lemma TagsBindTheRun<R(!new)>(
    s: Suite<R>, tag: Bytes, sid: Bytes, k: Bytes, ya: Bytes, yb: Bytes,
    tag': Bytes, sid': Bytes, k': Bytes, ya': Bytes, yb': Bytes)
    requires forall x :: |s.sha512(x)| == 64
    requires Tag(s, Derive(s, sid, k, ya, yb), tag) == Tag(s, Derive(s, sid', k', ya', yb'), tag')
    ensures var c, c' := Derive(s, sid, k, ya, yb), Derive(s, sid', k', ya', yb');
      || (tag == tag' && sid == sid' && k == k' && ya == ya' && yb == yb')
      || TagsCollide(s, tag, k, c, tag', k', c')
  {
    hide IskInput, MacInput, TagInput;
    var c, c' := Derive(s, sid, k, ya, yb), Derive(s, sid', k', ya', yb');
    if TagInput(tag, ya, yb) == TagInput(tag', ya', yb') && c.macKey == c'.macKey {
      TagInputIsInjective(tag, ya, yb, tag', ya', yb');
      if MacInput(sid, c.isk) == MacInput(sid', c'.isk) {
        MacInputIsInjective(sid, c.isk, sid', c'.isk);
        if IskInput(sid, k, ya, yb) == IskInput(sid', k', ya', yb') {
          IskInputIsInjective(sid, k, ya, yb, sid', k', ya', yb');
        }
      }
    }
  }

  /** The Pond's own tag never passes for the phone's: a reflected tag is a collision of HMAC. */
  lemma NoReflection<R(!new)>(s: Suite<R>, c: Confirmation)
    requires Tag(s, c, CLIENT_TAG_LABEL) == Tag(s, c, SERVER_TAG_LABEL)
    ensures Collides(m => s.hmac(c.macKey, m),
                     TagInput(CLIENT_TAG_LABEL, c.ya, c.yb), TagInput(SERVER_TAG_LABEL, c.ya, c.yb))
  {
    hide TagInput;
    if TagInput(CLIENT_TAG_LABEL, c.ya, c.yb) == TagInput(SERVER_TAG_LABEL, c.ya, c.yb) {
      TagInputIsInjective(CLIENT_TAG_LABEL, c.ya, c.yb, SERVER_TAG_LABEL, c.ya, c.yb);
      LabelsDiffer();
    }
  }

  // ----- The code matters -----------------------------------------------------

  lemma FourTerms<R(!new), G(!new)>(s: Suite<R>, g: Group<R, G>, x: G, y: G, u: G, v: G)
    requires Lawful(s, g)
    ensures g.plus(g.plus(x, y), g.plus(u, v)) == g.plus(g.plus(x, u), g.plus(y, v))
  {
    hide Lawful;
    Regroup(s, g, x, y, g.plus(u, v));
    Regroup(s, g, y, u, v);
    Commute(s, g, y, u);
    Regroup(s, g, u, y, v);
    Regroup(s, g, x, u, g.plus(y, v));
  }

  lemma {:induction false} TimesOfPlus<R(!new), G(!new)>(s: Suite<R>, g: Group<R, G>, k: nat, x: G, y: G)
    requires Lawful(s, g)
    ensures Times(g, k, g.plus(x, y)) == g.plus(Times(g, k, x), Times(g, k, y))
  {
    hide Lawful;
    if k == 0 {
      ZeroIsNeutral(s, g, g.zero);
    } else {
      TimesOfPlus(s, g, k - 1, x, y);
      FourTerms(s, g, x, y, Times(g, k - 1, x), Times(g, k - 1, y));
    }
  }

  /** In a group of prime order a smaller scalar takes different elements to different ones. */
  lemma TimesCancels<R(!new), G(!new)>(s: Suite<R>, g: Group<R, G>, q: nat, n: nat, x: G, y: G)
    requires Lawful(s, g) && IsPrime(q) && (forall e :: Times(g, q, e) == g.zero) && 0 < n < q
    requires Times(g, n, x) == Times(g, n, y)
    ensures x == y
  {
    hide Lawful, IsPrime;
    var inverse := Times(g, q - 1, y);
    assert g.plus(y, inverse) == Times(g, q, y);
    TimesOfPlus(s, g, n, x, inverse);
    TimesOfPlus(s, g, n, y, inverse);
    TimesOfZero(s, g, n);
    NoSmallerOrder(s, g, q, n, g.plus(x, inverse));
    Regroup(s, g, x, inverse, y);
    Commute(s, g, inverse, y);
    Commute(s, g, x, g.zero);
    ZeroIsNeutral(s, g, x);
    ZeroIsNeutral(s, g, y);
  }

  /** What an end sets up its run with: the code, and all that the code is good for. */
  datatype Setup = Setup(
    code: Bytes, pin: Bytes, client: Bytes, credential: Credential, challenge: Bytes, nonce: Bytes)
  {
    function Channel(): Bytes { ChannelIdentifier(pin, client, credential) }
    function Session(): Bytes { challenge + nonce }
    function Hashed(): Bytes { GeneratorString(code, Channel(), Session()) }
  }

  /** The two setups ask for the same generator. */
  predicate SameSetup(x: Setup, y: Setup) {
    && x.code == y.code && x.pin == y.pin && x.client == y.client && x.credential == y.credential
    && x.challenge + x.nonce == y.challenge + y.nonce
  }

  /** A Pond that holds one setup accepts what a phone that holds the other answers and confirms. */
  predicate Accepts<R>(s: Suite<R>, pond: Setup, phone: Setup, a: nat, b: nat) {
    var ya := Offer(s, a, pond.code, pond.Channel(), pond.Session());
    var answer := Answer(s, phone.code, phone.Channel(), phone.Session(), ya, b);
    answer.Some?
    && Finished(s, a, ya, pond.Session(), answer.value.0, Tag(s, answer.value.1, CLIENT_TAG_LABEL)).Ok?
  }

  /**
   The ways in which two setups that differ could come to the same tag: two generator strings
   with one digest, two digests with one element, or a hash behind the tags.
   */
  ghost predicate SetupsCollide<R(!new), G(!new)>(
    s: Suite<R>, g: Group<R, G>, pond: Setup, phone: Setup, a: nat, b: nat)
  {
    var ya := Offer(s, a, pond.code, pond.Channel(), pond.Session());
    var yb := Offer(s, b, phone.code, phone.Channel(), phone.Session());
    var k, k' := SharedPoint(s, a, yb).GetOr([]), SharedPoint(s, b, ya).GetOr([]);
    || Collides(s.sha512, pond.Hashed(), phone.Hashed())
    || Collides(d => g.value(s.element(d)), s.sha512(pond.Hashed()), s.sha512(phone.Hashed()))
    || TagsCollide(s, CLIENT_TAG_LABEL, k, Derive(s, pond.Session(), k, ya, yb),
                   CLIENT_TAG_LABEL, k', Derive(s, phone.Session(), k', ya, yb))
  }

  /** Shares of two generators lead to one point only if the generators are one. */
  lemma SharesOfTwo<R(!new), G(!new)>(s: Suite<R>, g: Group<R, G>, q: nat, a: nat, b: nat, x: R, y: R)
    requires Lawful(s, g) && IsPrime(q) && (forall e :: Times(g, q, e) == g.zero) && 0 < a < q && 0 < b < q
    requires SharedPoint(s, a, s.encode(Product(s, b, y))) == SharedPoint(s, b, s.encode(Product(s, a, x)))
    requires SharedPoint(s, a, s.encode(Product(s, b, y))).Some?
    ensures g.value(x) == g.value(y)
  {
    hide Lawful, Times, Product, IsPrime;
    var pa := PeerPoint(s, g, a, b, y);
    var pb := PeerPoint(s, g, b, a, x);
    OneEncoding(s, g, Product(s, a, pa), Product(s, b, pb));
    TimesCommutes(s, g, a, b, g.value(y));
    TimesCancels(s, g, q, b, Times(g, a, g.value(y)), Times(g, a, g.value(x)));
    TimesCancels(s, g, q, a, g.value(y), g.value(x));
  }

  /**
   A wrong code is refused: the Pond accepts a phone only if both hold the same code, for the
   same pin, client, kind of credential and session, or something collided.
   */
  lemma OnlyTheCodePairs<R(!new), G(!new)>(
    s: Suite<R>, g: Group<R, G>, q: nat, pond: Setup, phone: Setup, a: nat, b: nat)
    requires Lawful(s, g) && IsPrime(q) && (forall x :: Times(g, q, x) == g.zero)
    requires 0 < a < q && 0 < b < q && (forall x :: |s.sha512(x)| == 64)
    requires Accepts(s, pond, phone, a, b)
    ensures SameSetup(pond, phone) || SetupsCollide(s, g, pond, phone, a, b)
  {
    hide Lawful, Times, Product, Tag, Derive, TagsCollide, IsPrime, SharedPoint;
    hide ChannelIdentifier, GeneratorString;
    var ya := Offer(s, a, pond.code, pond.Channel(), pond.Session());
    var yb := Offer(s, b, phone.code, phone.Channel(), phone.Session());
    var k, k' := SharedPoint(s, a, yb), SharedPoint(s, b, ya);
    assert k.Some? && k'.Some?;
    TagsBindTheRun(s, CLIENT_TAG_LABEL, pond.Session(), k.value, ya, yb,
                   CLIENT_TAG_LABEL, phone.Session(), k'.value, ya, yb);
    if !SetupsCollide(s, g, pond, phone, a, b) {
      assert k == k';
      SharesOfTwo(s, g, q, a, b, s.element(s.sha512(pond.Hashed())), s.element(s.sha512(phone.Hashed())));
      assert pond.Hashed() == phone.Hashed();
      GeneratorStringIsInjective(
        pond.code, pond.Channel(), pond.Session(), phone.code, phone.Channel(), phone.Session());
      ChannelIdentifierIsInjective(
        pond.pin, pond.client, pond.credential, phone.pin, phone.client, phone.credential);
    }
  }

  /**
   One whole run: the Pond offers, the phone answers and confirms, the Pond checks and confirms,
   the phone checks. With one setup at both ends it pairs, unless the code's generator is the
   zero element; with two it does not, unless something collided.
   */
  method Pair<R(!new), G(!new)>(
      s: Suite<R>, ghost g: Group<R, G>, ghost q: nat, pond: Setup, phone: Setup, a: nat, b: nat)
    returns (paired: bool)
    requires Lawful(s, g) && IsPrime(q) && (forall x :: Times(g, q, x) == g.zero)
    requires 0 < a < q && 0 < b < q && (forall x :: |s.sha512(x)| == 64)
    ensures SameSetup(pond, phone) ==>
      (paired <==> g.value(Generator(s, pond.code, pond.Channel(), pond.Session())) != g.zero)
    ensures paired && !SameSetup(pond, phone) ==> SetupsCollide(s, g, pond, phone, a, b)
  {
    hide Lawful, Times, Offer, Answer, Finished, Tag, Generator, IsPrime, ChannelIdentifier, SetupsCollide;
    HonestRunSucceeds(s, g, q, pond.code, pond.Channel(), pond.Session(), a, b);
    if Accepts(s, pond, phone, a, b) {
      OnlyTheCodePairs(s, g, q, pond, phone, a, b);
    }
    var initiator := new Initiator<R>(s, g, a, pond.code, pond.Channel(), pond.Session());
    var responder := Respond(
      s, g, phone.code, phone.pin, phone.client, phone.challenge, phone.nonce, initiator.share, b, phone.credential);
    if responder.None? {
      return false;
    }
    var clientTag := responder.value.Confirm();
    var finished := initiator.Finish(g, responder.value.share, clientTag);
    if finished.Err? {
      return false;
    }
    paired := responder.value.VerifyServer(finished.value.0);
  }
}
