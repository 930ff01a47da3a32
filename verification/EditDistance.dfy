/**
 The word-level edit distance of the voice bench (scripts/voice-bench/score.py): a rolling
 two-row dynamic program, proved to be the least cost of any script of single-word edits
 that turns the reference into the hypothesis.
 */
module EditDistance {
  import opened Results

  // ----- Edit scripts -------------------------------------------------------

  /** One step of a script that rewrites a sequence from its first word to its last. */
  datatype Edit<T> = Keep | Substitute(word: T) | Insert(word: T) | Delete

  /** What a step that consumes the word `w` of the reference puts in its place. */
  function Emitted<T>(edit: Edit<T>, w: T): seq<T> {
    match edit
    case Keep => [w]
    case Substitute(word) => [word]
    case Insert(word) => [word]
    case Delete => []
  }

  function Then<T>(out: Option<seq<T>>, more: seq<T>): Option<seq<T>> {
    if out.Some? then Some(out.value + more) else None
  }

  /** What a script makes of `ref`: it must account for every word of `ref`, in order. */
  function Rewrite<T>(script: seq<Edit<T>>, ref: seq<T>): Option<seq<T>> {
    if script == [] then
      if ref == [] then Some([]) else None
    else
      var before, last := script[..|script| - 1], script[|script| - 1];
      if last.Insert? then
        Then(Rewrite(before, ref), [last.word])
      else if ref == [] then
        None
      else
        Then(Rewrite(before, ref[..|ref| - 1]), Emitted(last, ref[|ref| - 1]))
  }

  /** Every edit but `Keep` costs one. */
  function Cost<T>(script: seq<Edit<T>>): nat {
    if script == [] then 0
    else Cost(script[..|script| - 1]) + if script[|script| - 1].Keep? then 0 else 1
  }

  ghost predicate Turns<T>(script: seq<Edit<T>>, ref: seq<T>, hyp: seq<T>) {
    Rewrite(script, ref) == Some(hyp)
  }

  /** `d` is the cost of some script from `ref` to `hyp`, and no script is cheaper. */
  ghost predicate IsLeastCost<T(!new)>(ref: seq<T>, hyp: seq<T>, d: int) {
    && (exists script :: Turns(script, ref, hyp) && Cost(script) == d)
    && (forall script :: Turns(script, ref, hyp) ==> d <= Cost(script))
  }

  // ----- The recurrence -----------------------------------------------------

  function Min(a: int, b: int): int {
    if a <= b then a else b
  }

  function Differ<T(==)>(a: T, b: T): nat {
    if a == b then 0 else 1
  }

  function Distance<T(==)>(ref: seq<T>, hyp: seq<T>): nat
    decreases |ref| + |hyp|
  {
    if ref == [] then |hyp|
    else if hyp == [] then |ref|
    else
      var r, h := ref[..|ref| - 1], hyp[..|hyp| - 1];
      Min(Min(Distance(r, hyp) + 1, Distance(ref, h) + 1),
          Distance(r, h) + Differ(ref[|ref| - 1], hyp[|hyp| - 1]))
  }

  // ----- The two-row program ------------------------------------------------

  /** The distance between the first `i` words of `ref` and the first `j` of `hyp`. */
  function Cell<T(==)>(ref: seq<T>, hyp: seq<T>, i: nat, j: nat): nat
    requires i <= |ref| && j <= |hyp|
  {
    if i == 0 then j
    else if j == 0 then i
    else
      Min(Min(Cell(ref, hyp, i - 1, j) + 1, Cell(ref, hyp, i, j - 1) + 1),
          Cell(ref, hyp, i - 1, j - 1) + Differ(ref[i - 1], hyp[j - 1]))
  }

  lemma DistanceStep<T>(a: seq<T>, b: seq<T>, shorter: nat, narrower: nat, both: nat)
    requires a != [] && b != []
    requires shorter == Distance(a[..|a| - 1], b) && narrower == Distance(a, b[..|b| - 1])
    requires both == Distance(a[..|a| - 1], b[..|b| - 1])
    ensures Distance(a, b) == Min(Min(shorter + 1, narrower + 1), both + Differ(a[|a| - 1], b[|b| - 1]))
  {
  }

  lemma CellStep<T>(ref: seq<T>, hyp: seq<T>, i: nat, j: nat, above: int, before: int, corner: int)
    requires 0 < i <= |ref| && 0 < j <= |hyp|
    requires above == Cell(ref, hyp, i - 1, j) && before == Cell(ref, hyp, i, j - 1)
    requires corner == Cell(ref, hyp, i - 1, j - 1)
    ensures Cell(ref, hyp, i, j) == Min(Min(above + 1, before + 1), corner + Differ(ref[i - 1], hyp[j - 1]))
  {
    hide Min, Differ;
  }

  lemma CellEdges<T>(ref: seq<T>, hyp: seq<T>, k: nat)
    ensures k <= |hyp| ==> Cell(ref, hyp, 0, k) == k
    ensures k <= |ref| ==> Cell(ref, hyp, k, 0) == k
  {
  }

  lemma DistanceEdges<T>(s: seq<T>)
    ensures Distance([], s) == |s| && Distance(s, []) == |s|
  {
  }

  lemma {:induction false} CellIsPrefixDistance<T>(ref: seq<T>, hyp: seq<T>, i: nat, j: nat)
    requires i <= |ref| && j <= |hyp|
    ensures Cell(ref, hyp, i, j) == Distance(ref[..i], hyp[..j])
  {
    hide Distance, Cell, Min, Differ;
    var a, b := ref[..i], hyp[..j];
    if i == 0 || j == 0 {
      CellEdges(ref, hyp, i + j);
      DistanceEdges(if i == 0 then b else a);
    } else {
      assert a[..i - 1] == ref[..i - 1] && b[..j - 1] == hyp[..j - 1];
      CellIsPrefixDistance(ref, hyp, i - 1, j);
      CellIsPrefixDistance(ref, hyp, i, j - 1);
      CellIsPrefixDistance(ref, hyp, i - 1, j - 1);
      var above, before, corner := Cell(ref, hyp, i - 1, j), Cell(ref, hyp, i, j - 1), Cell(ref, hyp, i - 1, j - 1);
      CellStep(ref, hyp, i, j, above, before, corner);
      DistanceStep(a, b, above, before, corner);
    }
  }

  lemma LastCell<T(!new)>(ref: seq<T>, hyp: seq<T>)
    ensures Cell(ref, hyp, |ref|, |hyp|) == Distance(ref, hyp)
    ensures IsLeastCost(ref, hyp, Distance(ref, hyp))
  {
    hide Distance, Cell, IsLeastCost;
    assert ref[..|ref|] == ref && hyp[..|hyp|] == hyp;
    CellIsPrefixDistance(ref, hyp, |ref|, |hyp|);
    DistanceIsLeastCost(ref, hyp);
  }

  /** The least number of inserted, deleted and substituted words between two transcripts. */
  method Edits<T(==, !new)>(ref: seq<T>, hyp: seq<T>) returns (d: int)
    ensures d == Distance(ref, hyp)
    ensures IsLeastCost(ref, hyp, d)
  {
    hide Distance, Rewrite, Cost, Cell, Min, Differ, IsLeastCost;
    var n := |hyp|;
    forall j | 0 <= j <= n ensures Cell(ref, hyp, 0, j) == j {
      CellEdges(ref, hyp, j);
    }
    var prev := new int[n + 1];
    forall j | 0 <= j <= n { prev[j] := j; }
    for i := 0 to |ref|
      invariant prev.Length == n + 1
      invariant forall j | 0 <= j <= n :: prev[j] == Cell(ref, hyp, i, j)
    {
      CellEdges(ref, hyp, i + 1);
      var cur := new int[n + 1];
      forall j | 0 <= j <= n { cur[j] := if j == 0 then i + 1 else 0; }
      for j := 0 to n
        invariant forall k | 0 <= k <= j :: cur[k] == Cell(ref, hyp, i + 1, k)
        invariant forall k | 0 <= k <= n :: prev[k] == Cell(ref, hyp, i, k)
      {
        CellStep(ref, hyp, i + 1, j + 1, prev[j + 1], cur[j], prev[j]);
        cur[j + 1] := Min(Min(prev[j + 1] + 1, cur[j] + 1), prev[j] + Differ(ref[i], hyp[j]));
      }
      prev := cur;
    }
    d := prev[n];
    LastCell(ref, hyp);
  }

  // ----- The recurrence is the least cost -----------------------------------

  /** Adding a last edit to a script, seen from its result. */
  lemma ExtendScript<T>(before: seq<Edit<T>>, last: Edit<T>, ref: seq<T>, hyp: seq<T>)
    ensures Cost(before + [last]) == Cost(before) + if last.Keep? then 0 else 1
    ensures last.Insert? ==>
      (Turns(before + [last], ref, hyp)
       <==> hyp != [] && hyp[|hyp| - 1] == last.word && Turns(before, ref, hyp[..|hyp| - 1]))
    ensures last.Delete? ==>
      (Turns(before + [last], ref, hyp) <==> ref != [] && Turns(before, ref[..|ref| - 1], hyp))
    ensures last.Keep? || last.Substitute? ==>
      (Turns(before + [last], ref, hyp)
       <==> ref != [] && hyp != [] && hyp[|hyp| - 1] == Emitted(last, ref[|ref| - 1])[0]
            && Turns(before, ref[..|ref| - 1], hyp[..|hyp| - 1]))
  {
    assert (before + [last])[..|before|] == before;
    if hyp != [] {
      assert hyp == hyp[..|hyp| - 1] + [hyp[|hyp| - 1]];
    }
    var rest := if last.Insert? then Rewrite(before, ref)
                else if ref == [] then None else Rewrite(before, ref[..|ref| - 1]);
    if rest.Some? && last.Delete? {
      assert rest.value + [] == rest.value;
    } else if rest.Some? {
      var w := if last.Insert? then last.word else Emitted(last, ref[|ref| - 1])[0];
      assert (rest.value + [w])[..|rest.value|] == rest.value;
    }
  }

  /** A script that costs exactly the distance. */
  lemma {:induction false} CheapestScript<T>(ref: seq<T>, hyp: seq<T>) returns (script: seq<Edit<T>>)
    ensures Turns(script, ref, hyp) && Cost(script) == Distance(ref, hyp)
    decreases |ref| + |hyp|
  {
    if ref == [] && hyp == [] {
      return [];
    }
    var last: Edit<T>;
    var before: seq<Edit<T>>;
    if hyp != [] && Distance(ref, hyp) == Distance(ref, hyp[..|hyp| - 1]) + 1 {
      before := CheapestScript(ref, hyp[..|hyp| - 1]);
      last := Insert(hyp[|hyp| - 1]);
    } else if ref != [] && Distance(ref, hyp) == Distance(ref[..|ref| - 1], hyp) + 1 {
      before := CheapestScript(ref[..|ref| - 1], hyp);
      last := Delete;
    } else {
      before := CheapestScript(ref[..|ref| - 1], hyp[..|hyp| - 1]);
      last := if ref[|ref| - 1] == hyp[|hyp| - 1] then Keep else Substitute(hyp[|hyp| - 1]);
    }
    ExtendScript(before, last, ref, hyp);
    script := before + [last];
  }

  /** No script from `ref` to `hyp` costs less than the distance. */
  lemma {:induction false} NoCheaperScript<T>(script: seq<Edit<T>>, ref: seq<T>, hyp: seq<T>)
    requires Turns(script, ref, hyp)
    ensures Distance(ref, hyp) <= Cost(script)
  {
    if script != [] {
      var before, last := script[..|script| - 1], script[|script| - 1];
      assert script == before + [last];
      ExtendScript(before, last, ref, hyp);
      OneMore(ref, hyp);
      match last
      case Insert(_) => NoCheaperScript(before, ref, hyp[..|hyp| - 1]);
      case Delete => NoCheaperScript(before, ref[..|ref| - 1], hyp);
      case _ => NoCheaperScript(before, ref[..|ref| - 1], hyp[..|hyp| - 1]);
    }
  }

  /** One more word on either side, or on both, adds at most one edit. */
  lemma OneMore<T>(ref: seq<T>, hyp: seq<T>)
    ensures ref != [] ==> Distance(ref, hyp) <= Distance(ref[..|ref| - 1], hyp) + 1
    ensures hyp != [] ==> Distance(ref, hyp) <= Distance(ref, hyp[..|hyp| - 1]) + 1
    ensures ref != [] && hyp != [] ==>
      Distance(ref, hyp) <= Distance(ref[..|ref| - 1], hyp[..|hyp| - 1])
                            + Differ(ref[|ref| - 1], hyp[|hyp| - 1])
  {
    if ref == [] && hyp != [] {
      assert Distance(ref, hyp[..|hyp| - 1]) == |hyp| - 1;
    }
  }

  lemma DistanceIsLeastCost<T(!new)>(ref: seq<T>, hyp: seq<T>)
    ensures IsLeastCost(ref, hyp, Distance(ref, hyp))
  {
    var script := CheapestScript(ref, hyp);
    forall other | Turns(other, ref, hyp)
      ensures Distance(ref, hyp) <= Cost(other)
    {
      NoCheaperScript(other, ref, hyp);
    }
  }

  // ----- It is a metric -----------------------------------------------------

  lemma {:induction false} DistanceIsSymmetric<T>(ref: seq<T>, hyp: seq<T>)
    ensures Distance(ref, hyp) == Distance(hyp, ref)
    decreases |ref| + |hyp|
  {
    if ref != [] && hyp != [] {
      var r, h := ref[..|ref| - 1], hyp[..|hyp| - 1];
      DistanceIsSymmetric(r, hyp);
      DistanceIsSymmetric(ref, h);
      DistanceIsSymmetric(r, h);
    }
  }

  lemma {:induction false} DistanceBounds<T>(ref: seq<T>, hyp: seq<T>)
    ensures |ref| - |hyp| <= Distance(ref, hyp)
    ensures |hyp| - |ref| <= Distance(ref, hyp)
    ensures Distance(ref, hyp) <= if |ref| <= |hyp| then |hyp| else |ref|
    decreases |ref| + |hyp|
  {
    if ref != [] && hyp != [] {
      DistanceBounds(ref[..|ref| - 1], hyp);
      DistanceBounds(ref, hyp[..|hyp| - 1]);
      DistanceBounds(ref[..|ref| - 1], hyp[..|hyp| - 1]);
    }
  }

  lemma {:induction false} ZeroExactlyOnEqual<T>(ref: seq<T>, hyp: seq<T>)
    ensures Distance(ref, hyp) == 0 <==> ref == hyp
    decreases |ref| + |hyp|
  {
    if ref != [] && hyp != [] {
      ZeroExactlyOnEqual(ref[..|ref| - 1], hyp[..|hyp| - 1]);
      assert ref == ref[..|ref| - 1] + [ref[|ref| - 1]];
      assert hyp == hyp[..|hyp| - 1] + [hyp[|hyp| - 1]];
    }
  }

  lemma {:induction false} TriangleInequality<T>(a: seq<T>, b: seq<T>, c: seq<T>)
    ensures Distance(a, c) <= Distance(a, b) + Distance(b, c)
    decreases |a| + |b| + |c|
  {
    OneMore(a, c);
    if a == [] {
      DistanceBounds(b, c);
    } else if c == [] {
      DistanceBounds(a, b);
    } else if b != [] {
      var a', b', c' := a[..|a| - 1], b[..|b| - 1], c[..|c| - 1];
      TriangleInequality(a', b, c);
      TriangleInequality(a, b, c');
      TriangleInequality(a, b', c);
      TriangleInequality(a, b', c');
      TriangleInequality(a', b', c);
      TriangleInequality(a', b', c');
    } else {
      DistanceBounds(a, c);
    }
  }
}
