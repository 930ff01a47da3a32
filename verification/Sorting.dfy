/** Stable sorting by a total order, and the order of strings by code point. */
module Sorting {
  ghost predicate TotalOrder<A(!new)>(le: (A, A) -> bool) {
    && (forall a, b :: le(a, b) || le(b, a))
    && (forall a, b, c :: le(a, b) && le(b, c) ==> le(a, c))
  }

  ghost predicate SortedBy<A>(s: seq<A>, le: (A, A) -> bool) {
    forall i, j :: 0 <= i < j < |s| ==> le(s[i], s[j])
  }

  /** Puts `a` behind every element that is not greater. */
  function Insert<A>(s: seq<A>, a: A, le: (A, A) -> bool): seq<A> {
    if s == [] || le(s[|s| - 1], a) then s + [a]
    else Insert(s[..|s| - 1], a, le) + [s[|s| - 1]]
  }

  function Sort<A>(s: seq<A>, le: (A, A) -> bool): seq<A> {
    if s == [] then [] else Insert(Sort(s[..|s| - 1], le), s[|s| - 1], le)
  }

  lemma {:induction false} InsertKeeps<A>(s: seq<A>, a: A, le: (A, A) -> bool)
    ensures multiset(Insert(s, a, le)) == multiset(s) + multiset{a}
  {
    if s != [] {
      assert s == s[..|s| - 1] + [s[|s| - 1]];
      if !le(s[|s| - 1], a) {
        InsertKeeps(s[..|s| - 1], a, le);
      }
    }
  }

  /** Sorting loses nothing and adds nothing. */
  lemma {:induction false} SortPermutes<A>(s: seq<A>, le: (A, A) -> bool)
    ensures multiset(Sort(s, le)) == multiset(s)
    ensures |Sort(s, le)| == |s|
    ensures forall a :: a in Sort(s, le) <==> a in s
  {
    if s != [] {
      var front := s[..|s| - 1];
      SortPermutes(front, le);
      InsertKeeps(Sort(front, le), s[|s| - 1], le);
      assert s == front + [s[|s| - 1]];
    }
    assert |multiset(Sort(s, le))| == |multiset(s)|;
    forall a ensures a in Sort(s, le) <==> a in s {
      assert a in Sort(s, le) <==> a in multiset(Sort(s, le));
    }
  }

  lemma {:induction false} InsertSorts<A(!new)>(s: seq<A>, a: A, le: (A, A) -> bool)
    requires TotalOrder(le) && SortedBy(s, le)
    ensures SortedBy(Insert(s, a, le), le)
  {
    if s != [] {
      var front, last := s[..|s| - 1], s[|s| - 1];
      if le(last, a) {
        forall i | 0 <= i < |s| ensures le(s[i], a) {
          assert i == |s| - 1 || le(s[i], last);
        }
      } else {
        InsertSorts(front, a, le);
        InsertKeeps(front, a, le);
        var inserted := Insert(front, a, le);
        forall i | 0 <= i < |inserted| ensures le(inserted[i], last) {
          assert inserted[i] in multiset(inserted);
          if inserted[i] != a {
            assert inserted[i] in multiset(front);
          }
        }
      }
    }
  }

  lemma {:induction false} SortSorts<A(!new)>(s: seq<A>, le: (A, A) -> bool)
    requires TotalOrder(le)
    ensures SortedBy(Sort(s, le), le)
  {
    if s != [] {
      SortSorts(s[..|s| - 1], le);
      InsertSorts(Sort(s[..|s| - 1], le), s[|s| - 1], le);
    }
  }

  predicate StringLe(a: string, b: string) {
    a == "" || (b != "" && (a[0] < b[0] || (a[0] == b[0] && StringLe(a[1..], b[1..]))))
  }

  /** The first difference of two strings, and the smaller is `a`. */
  predicate FirstSmallerAt(a: string, b: string, k: nat) {
    k < |a| && k < |b| && a[..k] == b[..k] && a[k] < b[k]
  }

  lemma PrefixHead(s: string, k: nat)
    requires 0 < k <= |s|
    ensures s[..k][0] == s[0] && s[..k][1..] == s[1..][..k - 1]
  {
  }

  lemma SmallerInTails(a: string, b: string, k: nat)
    requires a != "" && b != "" && a[0] == b[0]
    ensures FirstSmallerAt(a[1..], b[1..], k) <==> FirstSmallerAt(a, b, k + 1)
  {
    if k + 1 <= |a| && k + 1 <= |b| {
      PrefixHead(a, k + 1);
      PrefixHead(b, k + 1);
      assert a[..k + 1] == [a[0]] + a[1..][..k] && b[..k + 1] == [b[0]] + b[1..][..k];
    }
  }

  lemma SmallerAtOnce(a: string, b: string, k: nat)
    requires FirstSmallerAt(a, b, k)
    ensures k > 0 ==> a[0] == b[0]
  {
    if k > 0 {
      PrefixHead(a, k);
      PrefixHead(b, k);
    }
  }

  /** Strings compare by code point: a prefix comes first, else the first difference decides. */
  lemma {:induction false} StringLeExactly(a: string, b: string)
    ensures StringLe(a, b) <==> a <= b || exists k: nat :: FirstSmallerAt(a, b, k)
  {
    if a != "" && b != "" {
      forall k: nat | FirstSmallerAt(a, b, k) ensures k > 0 ==> a[0] == b[0] {
        SmallerAtOnce(a, b, k);
      }
      if a[0] == b[0] {
        StringLeExactly(a[1..], b[1..]);
        assert a == [a[0]] + a[1..] && b == [b[0]] + b[1..];
        forall k: nat ensures FirstSmallerAt(a[1..], b[1..], k) <==> FirstSmallerAt(a, b, k + 1) {
          SmallerInTails(a, b, k);
        }
        assert forall k: nat :: FirstSmallerAt(a, b, k) ==> k > 0 && FirstSmallerAt(a[1..], b[1..], k - 1);
      } else {
        assert a[..0] == b[..0] && (FirstSmallerAt(a, b, 0) <==> a[0] < b[0]);
      }
    }
  }

  lemma {:induction false} StringLeTotal(a: string, b: string)
    ensures StringLe(a, b) || StringLe(b, a)
    ensures StringLe(a, b) && StringLe(b, a) ==> a == b
  {
    if a != "" && b != "" {
      StringLeTotal(a[1..], b[1..]);
      assert a == [a[0]] + a[1..] && b == [b[0]] + b[1..];
    }
  }

  lemma {:induction false} StringLeTransitive(a: string, b: string, c: string)
    requires StringLe(a, b) && StringLe(b, c)
    ensures StringLe(a, c)
  {
    if a != "" && a[0] == b[0] == c[0] {
      StringLeTransitive(a[1..], b[1..], c[1..]);
    }
  }
}
