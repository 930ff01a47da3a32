/**
 Length-value encodings of CPace (scripts/pond_cpace.py, Appendix A of draft-irtf-cfrg-cpace-21):
 what is hashed determines every part that went into it. A byte string is a sequence of numbers.
 */
module Encoding {
  type Bytes = seq<int>

  function Ascii(s: string): (r: Bytes)
    ensures |r| == |s| && forall i :: 0 <= i < |s| ==> r[i] == s[i] as int
  {
    seq(|s|, i requires 0 <= i < |s| => s[i] as int)
  }

  function Zeros(n: nat): (r: Bytes)
    ensures |r| == n && forall i :: 0 <= i < n ==> r[i] == 0
  {
    seq(n, _ => 0)
  }

  // ----- A length in front ----------------------------------------------------

  /** Seven bits a byte, low bits first, the top bit set on all but the last. */
  function Leb(n: nat): (r: Bytes)
    ensures |r| > 0 && forall i :: 0 <= i < |r| ==> 0 <= r[i] < 256
  {
    if n < 128 then [n] else [n % 128 + 128] + Leb(n / 128)
  }

  function Prefixed(data: Bytes): Bytes {
    Leb(|data|) + data
  }

  method PrependLen(data: Bytes) returns (r: Bytes)
    ensures r == Prefixed(data)
  {
    var length: nat, out := |data|, [];
    while true
      invariant Leb(|data|) == out + Leb(length)
      decreases length
    {
      var last := length < 128;
      out := out + [if last then length else length % 128 + 128];
      length := length / 128;
      if last {
        return out + data;
      }
    }
  }

  /** A length can be read off whatever follows it. */
  lemma {:induction false} LebIsSelfDelimiting(m: nat, n: nat, x: Bytes, y: Bytes)
    requires Leb(m) + x == Leb(n) + y
    ensures m == n && x == y
  {
    assert (Leb(m) + x)[0] == (Leb(n) + y)[0];
    assert (m < 128) == (n < 128);
    if m < 128 {
      assert x == (Leb(m) + x)[1..] && y == (Leb(n) + y)[1..];
    } else {
      assert Leb(m / 128) + x == (Leb(m) + x)[1..];
      assert Leb(n / 128) + y == (Leb(n) + y)[1..];
      LebIsSelfDelimiting(m / 128, n / 128, x, y);
      SameQuotient(m, n);
    }
  }

  lemma SameQuotient(m: nat, n: nat)
    requires m / 128 == n / 128 && m % 128 == n % 128
    ensures m == n
  {
  }

  /** A prefixed part can be read off whatever follows it. */
  lemma PrefixedIsSelfDelimiting(a: Bytes, b: Bytes, x: Bytes, y: Bytes)
    requires Prefixed(a) + x == Prefixed(b) + y
    ensures a == b && x == y
  {
    hide Leb;
    assert Leb(|a|) + (a + x) == Leb(|b|) + (b + y) by {
      assert Prefixed(a) + x == Leb(|a|) + (a + x);
      assert Prefixed(b) + y == Leb(|b|) + (b + y);
    }
    LebIsSelfDelimiting(|a|, |b|, a + x, b + y);
    assert a == (a + x)[..|a|] && x == (a + x)[|a|..];
    assert b == (b + y)[..|b|] && y == (b + y)[|b|..];
  }

  // ----- Parts in a row -------------------------------------------------------

  function LvCat(parts: seq<Bytes>): Bytes {
    if parts == [] then [] else Prefixed(parts[0]) + LvCat(parts[1..])
  }

  /** As many parts, encoded alike before any suffixes, are the same parts. */
  lemma {:induction false} LvCatIsInjective(ps: seq<Bytes>, qs: seq<Bytes>, x: Bytes, y: Bytes)
    requires |ps| == |qs| && LvCat(ps) + x == LvCat(qs) + y
    ensures ps == qs && x == y
  {
    hide Prefixed;
    if ps == [] {
      assert LvCat(ps) + x == x && LvCat(qs) + y == y;
    } else {
      assert LvCat(ps) + x == Prefixed(ps[0]) + (LvCat(ps[1..]) + x);
      assert LvCat(qs) + y == Prefixed(qs[0]) + (LvCat(qs[1..]) + y);
      PrefixedIsSelfDelimiting(ps[0], qs[0], LvCat(ps[1..]) + x, LvCat(qs[1..]) + y);
      LvCatIsInjective(ps[1..], qs[1..], x, y);
      assert ps == [ps[0]] + ps[1..] && qs == [qs[0]] + qs[1..];
    }
  }

  lemma LvCatAlone(ps: seq<Bytes>, qs: seq<Bytes>)
    requires |ps| == |qs| && LvCat(ps) == LvCat(qs)
    ensures ps == qs
  {
    assert LvCat(ps) + [] == LvCat(ps) && LvCat(qs) + [] == LvCat(qs);
    LvCatIsInjective(ps, qs, [], []);
  }

  lemma {:induction false} LvCatInTwo(ps: seq<Bytes>, qs: seq<Bytes>)
    ensures LvCat(ps + qs) == LvCat(ps) + LvCat(qs)
  {
    hide Prefixed;
    if ps == [] {
      assert ps + qs == qs;
    } else {
      assert (ps + qs)[1..] == ps[1..] + qs;
      LvCatInTwo(ps[1..], qs);
    }
  }

  // ----- The strings of the protocol ------------------------------------------

  const DSI := Ascii("CPaceRistretto255")
  const DSI_ISK := DSI + Ascii("_ISK")
  const MAC_PREFIX := Ascii("CPaceMac")
  const CLIENT_TAG_LABEL := Ascii("goose-pair-cpace-client-v1")
  const SERVER_TAG_LABEL := Ascii("goose-pair-cpace-server-v1")

  datatype Credential = Pairing | Setup | Device

  function ChannelLabel(credential: Credential): Bytes {
    match credential
    case Pairing => Ascii("goose-pair-cpace-v1")
    case Setup => Ascii("goose-setup-cpace-v1")
    case Device => Ascii("goose-device-cpace-v1")
  }

  function ChannelIdentifier(pin: Bytes, client: Bytes, credential: Credential): Bytes {
    LvCat([ChannelLabel(credential), pin, client])
  }

  function Max(a: int, b: int): int { if a < b then b else a }

  function ZeroPad(prs: Bytes): nat {
    Max(0, 128 - 1 - |Prefixed(prs)| - |Prefixed(DSI)|)
  }

  function GeneratorString(prs: Bytes, ci: Bytes, sid: Bytes): Bytes {
    LvCat([DSI, prs, Zeros(ZeroPad(prs)), ci, sid])
  }

  /** Two setups share a generator string only if they share the secret, the channel and the session. */
  lemma GeneratorStringIsInjective(p: Bytes, c: Bytes, s: Bytes, p': Bytes, c': Bytes, s': Bytes)
    requires GeneratorString(p, c, s) == GeneratorString(p', c', s')
    ensures p == p' && c == c' && s == s'
  {
    hide LvCat;
    var ps, qs := [DSI, p, Zeros(ZeroPad(p)), c, s], [DSI, p', Zeros(ZeroPad(p')), c', s'];
    LvCatAlone(ps, qs);
    assert ps[1] == qs[1] && ps[3] == qs[3] && ps[4] == qs[4];
  }

  /** The secret is padded to fill the hash's first block of 128 bytes, exactly when it can be. */
  lemma SecretFillsABlock(prs: Bytes)
    ensures var head := LvCat([DSI, prs, Zeros(ZeroPad(prs))]);
      && |head| >= 128
      && (|head| == 128 <==> |Prefixed(DSI)| + |Prefixed(prs)| <= 127)
    ensures forall ci, sid :: LvCat([DSI, prs, Zeros(ZeroPad(prs))]) <= GeneratorString(prs, ci, sid)
  {
    hide Leb;
    var pad := Zeros(ZeroPad(prs));
    var parts := [DSI, prs, pad];
    LengthOfThree(DSI, prs, pad);
    assert |Leb(|DSI|)| == 1 && |Leb(ZeroPad(prs))| == 1 by {
      OneByteLength(|DSI|);
      OneByteLength(ZeroPad(prs));
    }
    forall ci, sid ensures LvCat(parts) <= GeneratorString(prs, ci, sid) {
      LvCatInTwo(parts, [ci, sid]);
      assert parts + [ci, sid] == [DSI, prs, pad, ci, sid];
    }
  }

  lemma OneByteLength(n: nat)
    requires n < 128
    ensures |Leb(n)| == 1
  {
  }

  lemma LengthOfThree(a: Bytes, b: Bytes, c: Bytes)
    ensures |LvCat([a, b, c])| == |Prefixed(a)| + |Prefixed(b)| + |Prefixed(c)|
  {
    hide Prefixed;
    assert [a, b, c][1..] == [b, c] && [b, c][1..] == [c] && [c][1..] == [];
    assert LvCat([c]) == Prefixed(c) + LvCat([]);
    assert LvCat([b, c]) == Prefixed(b) + LvCat([c]);
  }

  lemma LabelsDiffer()
    ensures CLIENT_TAG_LABEL != SERVER_TAG_LABEL
    ensures forall c, d :: c != d ==> ChannelLabel(c) != ChannelLabel(d)
  {
    assert CLIENT_TAG_LABEL[17] == 'c' as int && SERVER_TAG_LABEL[17] == 's' as int;
    assert ChannelLabel(Pairing)[6] == 'p' as int && ChannelLabel(Setup)[6] == 's' as int;
    assert ChannelLabel(Device)[6] == 'd' as int;
  }

  /** A channel belongs to one kind of credential, one pin and one client. */
  lemma ChannelIdentifierIsInjective(p: Bytes, c: Bytes, k: Credential, p': Bytes, c': Bytes, k': Credential)
    requires ChannelIdentifier(p, c, k) == ChannelIdentifier(p', c', k')
    ensures p == p' && c == c' && k == k'
  {
    hide LvCat, ChannelLabel;
    var ps, qs := [ChannelLabel(k), p, c], [ChannelLabel(k'), p', c'];
    LvCatAlone(ps, qs);
    assert ps[0] == qs[0] && ps[1] == qs[1] && ps[2] == qs[2];
    LabelsDiffer();
  }
}
