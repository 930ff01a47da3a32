/**
 Who gets which directory (`assign_dirs` in scripts/models/vision_pairings.py): a name that
 several pairings ask for goes to the one that stands first, and the others get the author's
 name in front, or that with the least free number.
 */
module PairingOrder {
  import opened Text
  import opened Sorting
  import opened PairingTable

  predicate Listed(p: Pairing, c: Context) {
    KeyOf(p) in c.byFile
  }

  predicate RepoListed(p: Pairing, c: Context) {
    Listed(p, c) || Lower(p.repo) in c.byRepo
  }

  predicate Explicit(p: Pairing, c: Context) {
    RepoListed(p, c) || Lower(p.repo) in c.explicit
  }

  function AuthorRank(p: Pairing, c: Context): nat {
    var author := AuthorOf(Lower(p.repo));
    if author in c.authors then c.authors[author] else |c.authors|
  }

  /** Strictly before in the order of code points. */
  predicate Less(a: string, b: string) {
    a != b && StringLe(a, b)
  }

  /** By repository, and within one by encoder. */
  predicate NamedBefore(a: Pairing, b: Pairing) {
    Less(Lower(a.repo), Lower(b.repo)) || (Lower(a.repo) == Lower(b.repo) && Less(a.encoder, b.encoder))
  }

  /**
   Pairings in the table come first, then those of a repository in it, then the explicit ones in
   their order, then the rest in the order of their authors; where that leaves two level, they
   stand by name.
   */
  predicate StandsBefore(a: Pairing, b: Pairing, c: Context) {
    if Listed(a, c) || Listed(b, c) then
      Listed(a, c) && (Listed(b, c) ==> NamedBefore(a, b))
    else if RepoListed(a, c) || RepoListed(b, c) then
      RepoListed(a, c) && (RepoListed(b, c) ==> NamedBefore(a, b))
    else if Explicit(a, c) && Explicit(b, c) then
      var i, j := c.explicit[Lower(a.repo)], c.explicit[Lower(b.repo)];
      i < j || (i == j && Less(a.encoder, b.encoder))
    else if Explicit(a, c) || Explicit(b, c) then Explicit(a, c)
    else
      var i, j := AuthorRank(a, c), AuthorRank(b, c);
      i < j || (i == j && NamedBefore(a, b))
  }

  lemma Position(pairings: seq<Pairing>, c: Context, i: nat) returns (k: nat)
    requires i < |pairings|
    ensures k < |Order(pairings, c)| && Order(pairings, c)[k] == Ranked(i, PriorityOf(pairings[i], c))
  {
    hide Order, PriorityOf;
    OrderIsOfPairings(pairings, c);
    var r := Ranked(i, PriorityOf(pairings[i], c));
    assert r in Order(pairings, c);
    k :| 0 <= k < |Order(pairings, c)| && Order(pairings, c)[k] == r;
  }

  /** The program's sort keys order pairings in just this way. */
  lemma StandingIsPriority(a: Pairing, b: Pairing, c: Context)
    ensures StandsBefore(a, b, c) <==> !PriorityLe(PriorityOf(b, c), PriorityOf(a, c))
  {
    hide Lower, KeyOf, AuthorOf, StringLe;
    StringLeTotal(Lower(a.repo), Lower(b.repo));
    StringLeTotal(a.encoder, b.encoder);
  }

  /** Of two pairings with different keys one of which is in the table, one stands before the other. */
  lemma KnownStandApart(a: Pairing, b: Pairing, c: Context)
    requires Listed(a, c) && KeyOf(a) != KeyOf(b)
    ensures StandsBefore(a, b, c) || StandsBefore(b, a, c)
  {
    hide Lower, StringLe;
    StringLeTotal(Lower(a.repo), Lower(b.repo));
    StringLeTotal(a.encoder, b.encoder);
  }

  lemma FirstIsServedFirst(pairings: seq<Pairing>, c: Context, k: nat, m: nat)
    requires k < |Order(pairings, c)| && m < |Order(pairings, c)|
    requires Order(pairings, c)[k].index < |pairings| && Order(pairings, c)[m].index < |pairings|
    requires StandsBefore(pairings[Order(pairings, c)[k].index], pairings[Order(pairings, c)[m].index], c)
    ensures k < m
  {
    hide PriorityOf, PriorityLe, StandsBefore, RankAll, SortedBy;
    var order := Order(pairings, c);
    OrderIsOfPairings(pairings, c);
    assert order[k] in order && order[m] in order;
    StandingIsPriority(pairings[order[k].index], pairings[order[m].index], c);
    PriorityLeIsTotal();
    SortSorts(RankAll(pairings, c), RankedLe());
    if m <= k {
      Ascends(order, m, k);
    }
  }

  lemma Ascends(order: seq<Ranked>, m: nat, k: nat)
    requires SortedBy(order, RankedLe()) && m <= k < |order|
    ensures PriorityLe(order[m].priority, order[k].priority)
  {
    if m == k {
      PriorityLeIsTotal();
      assert RankedLe()(order[k], order[k]);
    } else {
      assert RankedLe()(order[m], order[k]);
    }
  }

  /** A name taken before position `k` is the directory of a pairing served earlier. */
  lemma TakenByEarlier(pairings: seq<Pairing>, c: Context, k: nat, name: string) returns (m: nat)
    requires k < |Order(pairings, c)| && forall r :: r in Order(pairings, c) ==> r.index < |pairings|
    requires name in Assign(Order(pairings, c)[..k], pairings, c).Values
    ensures m < k
    ensures var j := Order(pairings, c)[m].index; j in Dirs(pairings, c) && Dirs(pairings, c)[j] == name
  {
    hide Order, Assign, PriorityOf, HasIndex, ValuesDiffer;
    OrderIsOfPairings(pairings, c);
    var order := Order(pairings, c);
    NewIndex(order, k);
    AssignIsInjective(order[..k], pairings, c);
    var before := Assign(order[..k], pairings, c);
    var index :| index in before && before[index] == name;
    var r := WithIndex(order[..k], index);
    m :| 0 <= m < k && order[..k][m] == r;
    SameInPrefix(order, k, m, pairings, c);
  }

  /** What position `k` gets is what `Choose` leaves it. */
  lemma ServedAt(pairings: seq<Pairing>, c: Context, k: nat, i: nat)
    requires i < |pairings| && k < |Order(pairings, c)|
    requires Order(pairings, c)[k] == Ranked(i, PriorityOf(pairings[i], c))
    ensures forall r :: r in Order(pairings, c) ==> r.index < |pairings|
    ensures i in Dirs(pairings, c)
    ensures Dirs(pairings, c)[i] == Choose(pairings[i], c, Assign(Order(pairings, c)[..k], pairings, c).Values)
  {
    hide Order, Assign, PriorityOf, Choose;
    OrderIsOfPairings(pairings, c);
    EarlierDirsStay(Order(pairings, c), k, pairings, c);
  }

  /** Whoever stands behind a pairing never gets the name that pairing asks for. */
  lemma NameGoesToTheFirst(pairings: seq<Pairing>, c: Context, i: nat, j: nat)
    requires i < |pairings| && j < |pairings| && StandsBefore(pairings[i], pairings[j], c)
    ensures j in Dirs(pairings, c) && Dirs(pairings, c)[j] != Preferred(pairings[i], c)
  {
    hide Order, Assign, PriorityOf, Choose, Preferred, StandsBefore, Dirs;
    var k := Position(pairings, c, i);
    var m := Position(pairings, c, j);
    FirstIsServedFirst(pairings, c, k, m);
    ServedAt(pairings, c, k, i);
    EveryPairingHasItsOwnDir(pairings, c);
    OrderIsOfPairings(pairings, c);
    var dirs, name := Dirs(pairings, c), Preferred(pairings[i], c);
    if name in Assign(Order(pairings, c)[..k], pairings, c).Values {
      var e := TakenByEarlier(pairings, c, k, name);
      assert Order(pairings, c)[e].index != j;
    } else {
      ChoosePrefers(pairings[i], c, Assign(Order(pairings, c)[..k], pairings, c).Values);
    }
  }

  lemma ChoosePrefers(p: Pairing, c: Context, taken: set<string>)
    ensures Preferred(p, c) !in taken ==> Choose(p, c, taken) == Preferred(p, c)
  {
  }

  lemma {:induction false} FirstFreeIsLeast(stem: string, n: nat, taken: set<string>) returns (k: nat)
    ensures n <= k && FirstFree(stem, n, taken) == Numbered(stem, k)
    ensures forall m :: n <= m < k ==> Numbered(stem, m) in taken
    decreases |Ahead(stem, n, taken)|
  {
    if Numbered(stem, n) !in taken {
      k := n;
    } else {
      AheadShrinks(stem, n, taken);
      k := FirstFreeIsLeast(stem, n + 1, taken);
    }
  }

  /** Some other pairing, one that does not stand behind this one, has the name. */
  ghost predicate TakenByOther(pairings: seq<Pairing>, c: Context, i: nat, name: string)
    requires i < |pairings|
  {
    exists j :: 0 <= j < |pairings| && j != i && j in Dirs(pairings, c) && Dirs(pairings, c)[j] == name
      && !StandsBefore(pairings[i], pairings[j], c)
  }

  lemma TakenIsByOther(pairings: seq<Pairing>, c: Context, k: nat, i: nat, name: string)
    requires i < |pairings| && k < |Order(pairings, c)|
    requires Order(pairings, c)[k] == Ranked(i, PriorityOf(pairings[i], c))
    requires forall r :: r in Order(pairings, c) ==> r.index < |pairings|
    requires name in Assign(Order(pairings, c)[..k], pairings, c).Values
    ensures TakenByOther(pairings, c, i, name)
  {
    hide Order, Assign, PriorityOf, StandsBefore, Dirs;
    OrderIsOfPairings(pairings, c);
    var order := Order(pairings, c);
    var e := TakenByEarlier(pairings, c, k, name);
    assert order[e] in order;
    if StandsBefore(pairings[i], pairings[order[e].index], c) {
      FirstIsServedFirst(pairings, c, k, e);
    }
  }

  /**
   A pairing gets the name it asks for, unless one that does not stand behind it has that name;
   then the author's name in front, unless that is taken so too; and then the least number from
   two on that is not.
   */
  lemma NamesInTurn(pairings: seq<Pairing>, c: Context, i: nat) returns (k: nat)
    requires i < |pairings|
    ensures i in Dirs(pairings, c)
    ensures var dir, stem := Dirs(pairings, c)[i], Stem(pairings[i]);
      || dir == Preferred(pairings[i], c)
      || (TakenByOther(pairings, c, i, Preferred(pairings[i], c))
          && (|| dir == stem
              || (&& TakenByOther(pairings, c, i, stem) && k >= 2 && dir == Numbered(stem, k)
                  && forall n :: 2 <= n < k ==> TakenByOther(pairings, c, i, Numbered(stem, n)))))
  {
    hide Order, Assign, PriorityOf, Preferred, Stem, Numbered, TakenByOther, Dirs, FirstFree;
    var at := Position(pairings, c, i);
    ServedAt(pairings, c, at, i);
    var taken, stem := Assign(Order(pairings, c)[..at], pairings, c).Values, Stem(pairings[i]);
    k := FirstFreeIsLeast(stem, 2, taken);
    forall name | name in taken ensures TakenByOther(pairings, c, i, name) {
      TakenIsByOther(pairings, c, at, i, name);
    }
    ChooseIsPick(pairings[i], c, taken);
  }

  // ----- When a pairing of the table keeps its directory ----------------------

  /** `p` falls back on `name` when it cannot have the one it asks for. */
  ghost predicate CanFallBackOn(p: Pairing, name: string) {
    name == Stem(p) || exists n: nat :: n >= 2 && name == Numbered(Stem(p), n)
  }

  ghost predicate FallsBackOn(pairings: seq<Pairing>, c: Context, j: nat, name: string)
    requires j < |pairings|
  {
    Preferred(pairings[j], c) != name && j in Dirs(pairings, c) && Dirs(pairings, c)[j] == name
  }

  lemma FallsBackOnOwnNames(pairings: seq<Pairing>, c: Context, j: nat, name: string)
    requires j < |pairings| && FallsBackOn(pairings, c, j, name)
    ensures CanFallBackOn(pairings[j], name)
  {
    hide Dirs, Preferred, Stem, Numbered, TakenByOther;
    var k := NamesInTurn(pairings, c, j);
  }

  /** A pairing that stands before `i` asks for `name` or falls back on it. */
  ghost predicate ClaimedBefore(pairings: seq<Pairing>, c: Context, i: nat, name: string)
    requires i < |pairings|
  {
    exists j :: 0 <= j < |pairings| && StandsBefore(pairings[j], pairings[i], c)
      && (Preferred(pairings[j], c) == name || FallsBackOn(pairings, c, j, name))
  }

  lemma StandsBeforeIsStrict(p: Pairing, c: Context)
    ensures !StandsBefore(p, p, c)
  {
  }

  /**
   Who takes a directory from a pairing of the table stands before it, and asks for it through a
   line of its own or falls back on it; without such a pairing it keeps its line's directory.
   */
  lemma KnownKeepsExactly(pairings: seq<Pairing>, c: Context, i: nat)
    requires i < |pairings| && KeysDiffer(pairings) && Listed(pairings[i], c)
    ensures i in Dirs(pairings, c)
    ensures var name := c.byFile[KeyOf(pairings[i])];
      Dirs(pairings, c)[i] == name <==> !ClaimedBefore(pairings, c, i, name)
  {
    hide Dirs, StandsBefore, KeyOf, KeysDiffer;
    var name := c.byFile[KeyOf(pairings[i])];
    EveryPairingHasItsOwnDir(pairings, c);
    if Dirs(pairings, c)[i] != name {
      var j := HolderOfName(pairings, c, i, name);
      assert Preferred(pairings[j], c) == name || FallsBackOn(pairings, c, j, name);
    } else if ClaimedBefore(pairings, c, i, name) {
      var j :| 0 <= j < |pairings| && StandsBefore(pairings[j], pairings[i], c)
        && (Preferred(pairings[j], c) == name || FallsBackOn(pairings, c, j, name));
      StandsBeforeIsStrict(pairings[i], c);
      NameGoesToTheFirst(pairings, c, j, i);
    }
  }

  /** Who has the name a pairing of the table did not get stands before it. */
  lemma HolderOfName(pairings: seq<Pairing>, c: Context, i: nat, name: string) returns (j: nat)
    requires i < |pairings| && KeysDiffer(pairings) && Listed(pairings[i], c) && name == Preferred(pairings[i], c)
    requires i in Dirs(pairings, c) && Dirs(pairings, c)[i] != name
    ensures j < |pairings| && j in Dirs(pairings, c) && Dirs(pairings, c)[j] == name
    ensures StandsBefore(pairings[j], pairings[i], c)
  {
    hide Dirs, StandsBefore, KeyOf, KeysDiffer, Preferred, TakenByOther;
    var k := NamesInTurn(pairings, c, i);
    j := OtherWith(pairings, c, i, name);
    DifferentKeys(pairings, i, j);
    KnownStandApart(pairings[i], pairings[j], c);
  }

  lemma OtherWith(pairings: seq<Pairing>, c: Context, i: nat, name: string) returns (j: nat)
    requires i < |pairings| && TakenByOther(pairings, c, i, name)
    ensures j < |pairings| && j != i && j in Dirs(pairings, c) && Dirs(pairings, c)[j] == name
    ensures !StandsBefore(pairings[i], pairings[j], c)
  {
    hide Dirs, StandsBefore;
    j :| 0 <= j < |pairings| && j != i && j in Dirs(pairings, c) && Dirs(pairings, c)[j] == name
      && !StandsBefore(pairings[i], pairings[j], c);
  }

  /**
   When its directory is no name another could fall back on, that is read off the table alone:
   a pairing keeps its directory exactly when no pairing before it asks for the same one.
   */
  lemma KnownKeepsUnlessShared(pairings: seq<Pairing>, c: Context, i: nat)
    requires i < |pairings| && KeysDiffer(pairings) && Listed(pairings[i], c)
    requires forall p :: p in pairings && Preferred(p, c) != c.byFile[KeyOf(pairings[i])] ==>
      !CanFallBackOn(p, c.byFile[KeyOf(pairings[i])])
    ensures i in Dirs(pairings, c)
    ensures var name := c.byFile[KeyOf(pairings[i])];
      Dirs(pairings, c)[i] == name <==>
        forall p :: p in pairings && StandsBefore(p, pairings[i], c) ==> Preferred(p, c) != name
  {
    hide Dirs, StandsBefore, KeyOf, KeysDiffer, Preferred, CanFallBackOn;
    var name := c.byFile[KeyOf(pairings[i])];
    KnownKeepsExactly(pairings, c, i);
    forall j | 0 <= j < |pairings| ensures !FallsBackOn(pairings, c, j, name) {
      if FallsBackOn(pairings, c, j, name) {
        FallsBackOnOwnNames(pairings, c, j, name);
      }
    }
  }

  // ----- A table that gives one directory twice -------------------------------

  function SharedLine(repo: string): Line {
    map["model_repo" := Json.Str(repo), "encoder" := Json.Obj(map["dir" := Json.Str("m"), "filename" := Json.Str("e")])]
  }

  function SharedPairing(repo: string): Pairing {
    Pairing(repo, [], "", 0, "e", 0, "", "", 0, "")
  }

  lemma SharedLineSays(repo: string)
    requires Lower(repo) == repo
    ensures Loaded(SharedLine(repo)) && DirOf(SharedLine(repo)) == Json.Str("m") && UsableDir(DirOf(SharedLine(repo)))
    ensures LineKey(SharedLine(repo)) == KeyOf(SharedPairing(repo)) == Key(repo, Json.Str("e"))
  {
  }

  lemma ByFileOfTwo(a: Line, b: Line)
    requires Loaded(a) && Loaded(b) && UsableDir(DirOf(a)) && UsableDir(DirOf(b)) && LineKey(a) != LineKey(b)
    ensures ByFile([a, b]) == map[LineKey(a) := DirOf(a).s, LineKey(b) := DirOf(b).s]
  {
    hide LineKey, DirOf;
    assert [a, b][..1] == [a] && [a][..0] == [];
    assert ByFile([a]) == map[LineKey(a) := DirOf(a).s];
  }

  /**
   A table whose two lines have one directory, which its reader accepts: the pairing of the
   second line loses it on the next run.
   */
  lemma ASharedDirIsLost()
    ensures Lower("a/m") == "a/m" && Lower("b/m") == "b/m"
    ensures Loaded(SharedLine("a/m")) && Loaded(SharedLine("b/m"))
    ensures var pairings := [SharedPairing("a/m"), SharedPairing("b/m")];
      var c := ContextOf([SharedLine("a/m"), SharedLine("b/m")], [], []);
      && KeysDiffer(pairings) && Listed(pairings[1], c) && c.byFile[KeyOf(pairings[1])] == "m"
      && 1 in Dirs(pairings, c) && Dirs(pairings, c)[1] != "m"
  {
    hide Dirs, ByFile, ByRepo, SharedLine, SharedPairing, StandsBefore;
    assert Lower("a/m") == "a/m" && Lower("b/m") == "b/m";
    SharedLineSays("a/m");
    SharedLineSays("b/m");
    assert "a/m"[0] != "b/m"[0];
    ByFileOfTwo(SharedLine("a/m"), SharedLine("b/m"));
    var pairings := [SharedPairing("a/m"), SharedPairing("b/m")];
    var c := ContextOf([SharedLine("a/m"), SharedLine("b/m")], [], []);
    FirstOfTwo(c);
    NameGoesToTheFirst(pairings, c, 0, 1);
  }

  lemma FirstOfTwo(c: Context)
    requires Lower("a/m") == "a/m" && Lower("b/m") == "b/m"
    requires Listed(SharedPairing("a/m"), c) && Listed(SharedPairing("b/m"), c)
    ensures StandsBefore(SharedPairing("a/m"), SharedPairing("b/m"), c)
  {
    hide Lower;
    assert "a/m"[0] < "b/m"[0];
  }
}
