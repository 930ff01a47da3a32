/**
 How the vision pairing generator hands out encoder directories (`assign_dirs` in
 scripts/models/vision_pairings.py). A pairing is known by its position in the list of
 pairings; a line of the table is a JSON object.
 */
module PairingTable {
  import Sets
  import opened Text
  import opened Sorting

  /** A JSON value. Numbers and booleans are compared by value, as the program compares them. */
  datatype Json =
    | Null
    | Number(n: real)
    | Str(s: string)
    | Arr(items: seq<Json>)
    | Obj(fields: map<string, Json>)

  type Line = map<string, Json>

  /** A line's key: the repository in lower case and the encoder's file name, if it has one. */
  datatype Key = Key(repo: string, filename: Json)

  /** A checked model/encoder pair with its pinned revision. */
  datatype Pairing = Pairing(
    repo: string,
    modelFiles: seq<string>,
    architecture: string,
    width: nat,
    encoder: string,
    size: nat,
    sha256: string,
    projector: string,
    dim: nat,
    revision: string)

  // ----- Lines and keys -------------------------------------------------------

  /** What the table's reader makes sure of. */
  predicate Loaded(line: Line) {
    && "model_repo" in line && line["model_repo"].Str?
    && "encoder" in line && line["encoder"].Obj?
  }

  function Get(fields: map<string, Json>, name: string): Json {
    if name in fields then fields[name] else Null
  }

  function LineKey(line: Line): Key
    requires Loaded(line)
  {
    Key(Lower(line["model_repo"].s), Get(line["encoder"].fields, "filename"))
  }

  function DirOf(line: Line): Json
    requires Loaded(line)
  {
    Get(line["encoder"].fields, "dir")
  }

  predicate UsableDir(value: Json) {
    value.Str? && value.s != "" && '/' !in value.s && value.s[0] != '.'
  }

  function KeyOf(p: Pairing): Key {
    Key(Lower(p.repo), Str(p.encoder))
  }

  function WithoutDate(line: Line): Line {
    line - {"checked_at"}
  }

  // ----- Names ----------------------------------------------------------------

  predicate AlphaNumeric(c: char) {
    'A' <= c <= 'Z' || 'a' <= c <= 'z' || '0' <= c <= '9'
  }

  predicate IsName(s: string) {
    && s != "" && AlphaNumeric(s[0])
    && forall i :: 0 <= i < |s| ==> AlphaNumeric(s[i]) || s[i] in "._-"
  }

  /** The index of the first slash, or the length when there is none. */
  function Slash(s: string): (k: nat)
    ensures k <= |s| && (k < |s| ==> s[k] == '/') && '/' !in s[..k]
  {
    if s == "" || s[0] == '/' then 0 else 1 + Slash(s[1..])
  }

  function AuthorOf(repo: string): string {
    repo[..Slash(repo)]
  }

  function NameOf(repo: string): string {
    if Slash(repo) < |repo| then repo[Slash(repo) + 1..] else ""
  }

  /** A repository id: an author and a name with one slash between them. */
  predicate IsRepo(repo: string) {
    Slash(repo) < |repo| && IsName(AuthorOf(repo)) && IsName(NameOf(repo))
  }

  /** The name without its `-GGUF`, in any case, and in lower case. */
  function BareDir(repo: string): string {
    var name := Lower(NameOf(repo));
    if |name| >= 5 && name[|name| - 5..] == "-gguf" then name[..|name| - 5] else name
  }

  function Digit(d: nat): char
    requires d < 10
  {
    '0' + d as char
  }

  function Decimal(n: nat): string {
    if n < 10 then [Digit(n)] else Decimal(n / 10) + [Digit(n % 10)]
  }

  function Stem(p: Pairing): string {
    AuthorOf(Lower(p.repo)) + "-" + BareDir(p.repo)
  }

  function Numbered(stem: string, n: nat): string {
    stem + "-" + Decimal(n)
  }

  // ----- Directories ----------------------------------------------------------

  /** The first usable dir of each key, and of each repository, in the table. */
  function ByFile(lines: seq<Line>): map<Key, string>
    requires forall l :: l in lines ==> Loaded(l)
  {
    if lines == [] then map[]
    else
      var before, last := ByFile(lines[..|lines| - 1]), lines[|lines| - 1];
      if UsableDir(DirOf(last)) && LineKey(last) !in before
      then before[LineKey(last) := DirOf(last).s] else before
  }

  function ByRepo(lines: seq<Line>): map<string, string>
    requires forall l :: l in lines ==> Loaded(l)
  {
    if lines == [] then map[]
    else
      var before, last := ByRepo(lines[..|lines| - 1]), lines[|lines| - 1];
      if UsableDir(DirOf(last)) && LineKey(last).repo !in before
      then before[LineKey(last).repo := DirOf(last).s] else before
  }

  /** Each name in lower case with the position it was listed at last. */
  function Ranks(names: seq<string>): map<string, nat> {
    if names == [] then map[]
    else Ranks(names[..|names| - 1])[Lower(names[|names| - 1]) := |names| - 1]
  }

  /** Everything that decides a directory besides the pairings themselves. */
  datatype Context = Context(
    byFile: map<Key, string>,
    byRepo: map<string, string>,
    explicit: map<string, nat>,
    authors: map<string, nat>)

  /** A sort key as the program's tuples compare: by class, then number, text and encoder. */
  datatype Priority = Priority(class_: nat, number: nat, text: string, encoder: string)

  function PriorityOf(p: Pairing, c: Context): Priority {
    var repo := Lower(p.repo);
    if KeyOf(p) in c.byFile then Priority(0, 0, repo, p.encoder)
    else if repo in c.byRepo then Priority(1, 0, repo, p.encoder)
    else if repo in c.explicit then Priority(2, c.explicit[repo], "", p.encoder)
    else
      var author := AuthorOf(repo);
      Priority(3, if author in c.authors then c.authors[author] else |c.authors|, repo, p.encoder)
  }

  predicate PriorityLe(a: Priority, b: Priority) {
    if a.class_ != b.class_ then a.class_ < b.class_
    else if a.number != b.number then a.number < b.number
    else if a.text != b.text then StringLe(a.text, b.text)
    else StringLe(a.encoder, b.encoder)
  }

  /** A pairing's position with its priority. */
  datatype Ranked = Ranked(index: nat, priority: Priority)

  function RankAll(pairings: seq<Pairing>, c: Context): (r: seq<Ranked>)
    ensures |r| == |pairings|
    ensures forall i :: 0 <= i < |pairings| ==> r[i] == Ranked(i, PriorityOf(pairings[i], c))
  {
    seq(|pairings|, i requires 0 <= i < |pairings| => Ranked(i, PriorityOf(pairings[i], c)))
  }

  function RankedLe(): (Ranked, Ranked) -> bool {
    (a: Ranked, b: Ranked) => PriorityLe(a.priority, b.priority)
  }

  /** The order in which the pairings take their directories. */
  function Order(pairings: seq<Pairing>, c: Context): seq<Ranked> {
    Sort(RankAll(pairings, c), RankedLe())
  }

  /** The dir a pairing asks for first. */
  function Preferred(p: Pairing, c: Context): string {
    if KeyOf(p) in c.byFile then c.byFile[KeyOf(p)]
    else if Lower(p.repo) in c.byRepo then c.byRepo[Lower(p.repo)]
    else BareDir(p.repo)
  }

  function Choose(p: Pairing, c: Context, taken: set<string>): (r: string)
    ensures r !in taken
    ensures Preferred(p, c) !in taken ==> r == Preferred(p, c)
  {
    if Preferred(p, c) !in taken then Preferred(p, c)
    else if Stem(p) !in taken then Stem(p)
    else FirstFree(Stem(p), 2, taken)
  }

  /** The taken names numbered `n` or above, which the search can still run into. */
  ghost function Ahead(stem: string, n: nat, taken: set<string>): set<string> {
    set s | s in taken && exists k: nat :: n <= k && s == Numbered(stem, k)
  }

  function FirstFree(stem: string, n: nat, taken: set<string>): (r: string)
    ensures r !in taken
    ensures exists k: nat :: n <= k && r == Numbered(stem, k)
    decreases |Ahead(stem, n, taken)|
  {
    if Numbered(stem, n) !in taken then Numbered(stem, n)
    else
      AheadShrinks(stem, n, taken);
      FirstFree(stem, n + 1, taken)
  }

  lemma AheadShrinks(stem: string, n: nat, taken: set<string>)
    requires Numbered(stem, n) in taken
    ensures |Ahead(stem, n + 1, taken)| < |Ahead(stem, n, taken)|
  {
    var a, b := Ahead(stem, n, taken), Ahead(stem, n + 1, taken);
    if Numbered(stem, n) in b {
      var k: nat :| n + 1 <= k && Numbered(stem, n) == Numbered(stem, k);
      NumberedInjective(stem, n, k);
    }
    assert b <= a - {Numbered(stem, n)};
    assert Numbered(stem, n) in a;
    Sets.SubsetSize(b, a - {Numbered(stem, n)});
  }

  function Value(s: string): nat {
    if s == "" then 0 else Value(s[..|s| - 1]) * 10 + if '0' <= s[|s| - 1] <= '9' then (s[|s| - 1] - '0') as nat else 0
  }

  lemma {:induction false} ValueOfDecimal(n: nat)
    ensures Value(Decimal(n)) == n
  {
    if n < 10 {
      assert [Digit(n)][..0] == "";
    } else {
      ValueOfDecimal(n / 10);
      assert Decimal(n)[..|Decimal(n)| - 1] == Decimal(n / 10);
    }
  }

  lemma NumberedInjective(stem: string, m: nat, n: nat)
    ensures Numbered(stem, m) == Numbered(stem, n) ==> m == n
  {
    if Numbered(stem, m) == Numbered(stem, n) {
      assert Numbered(stem, m)[|stem| + 1..] == Decimal(m);
      assert Numbered(stem, n)[|stem| + 1..] == Decimal(n);
      ValueOfDecimal(m);
      ValueOfDecimal(n);
    }
  }

  /** The dirs taken by the pairings in an order, each by its position. */
  function Assign(order: seq<Ranked>, pairings: seq<Pairing>, c: Context): map<nat, string>
    requires forall r :: r in order ==> r.index < |pairings|
  {
    if order == [] then map[]
    else
      var before := Assign(order[..|order| - 1], pairings, c);
      var index := order[|order| - 1].index;
      before[index := Choose(pairings[index], c, before.Values)]
  }

  lemma OrderIsOfPairings(pairings: seq<Pairing>, c: Context)
    ensures |Order(pairings, c)| == |pairings|
    ensures forall r :: r in Order(pairings, c) <==>
      r.index < |pairings| && r.priority == PriorityOf(pairings[r.index], c)
    ensures forall i, j :: 0 <= i < j < |pairings| ==>
      Order(pairings, c)[i].index != Order(pairings, c)[j].index
  {
    var all, order := RankAll(pairings, c), Order(pairings, c);
    SortPermutes(all, RankedLe());
    forall r: Ranked | r.index < |pairings| && r.priority == PriorityOf(pairings[r.index], c)
      ensures r in all
    {
      assert all[r.index] == r;
    }
    SameIndexOnce(all, order);
  }

  lemma SameIndexOnce(all: seq<Ranked>, order: seq<Ranked>)
    requires multiset(all) == multiset(order)
    requires forall i :: 0 <= i < |all| ==> all[i].index == i
    ensures forall i, j :: 0 <= i < j < |order| ==> order[i].index != order[j].index
  {
    forall i, j | 0 <= i < j < |order|
      ensures order[i].index != order[j].index
    {
      if order[i].index == order[j].index {
        assert order[i] in multiset(order) && order[j] in multiset(order);
        assert order[i] in all && order[j] in all;
        assert order[i] == order[j];
        TwiceCountsTwice(order, i, j);
        OnceCountsOnce(all, order[i]);
        assert false;
      }
    }
  }

  lemma TwiceCountsTwice<A>(s: seq<A>, i: nat, j: nat)
    requires i < j < |s| && s[i] == s[j]
    ensures multiset(s)[s[i]] >= 2
  {
    assert s == s[..i] + [s[i]] + s[i + 1..j] + [s[j]] + s[j + 1..];
  }

  lemma OnceCountsOnce(all: seq<Ranked>, r: Ranked)
    requires forall i :: 0 <= i < |all| ==> all[i].index == i
    requires r in all
    ensures multiset(all)[r] == 1
  {
    var k := r.index;
    assert all == all[..k] + [all[k]] + all[k + 1..];
    assert r !in all[..k] && r !in all[k + 1..];
  }

  function ContextOf(existing: seq<Line>, explicit: seq<string>, authors: seq<string>): Context
    requires forall l :: l in existing ==> Loaded(l)
  {
    Context(ByFile(existing), ByRepo(existing), Ranks(explicit), Ranks(authors))
  }

  /** The directory of every pairing, by its position. */
  function Dirs(pairings: seq<Pairing>, c: Context): map<nat, string> {
    OrderIsOfPairings(pairings, c);
    Assign(Order(pairings, c), pairings, c)
  }

  /** The preferred dir, else the stem, else the first free numbered one. */
  method Pick(preferred: string, stem: string, taken: set<string>) returns (choice: string)
    ensures choice == if preferred !in taken then preferred
                      else if stem !in taken then stem else FirstFree(stem, 2, taken)
  {
    var options := [preferred, stem];
    var n := 2;
    while !exists k :: 0 <= k < |options| && options[k] !in taken
      invariant n >= 2
      invariant n == 2 ==> options == [preferred, stem]
      invariant n > 2 ==> options == [Numbered(stem, n - 1)] && preferred in taken && stem in taken
      invariant n > 2 ==> FirstFree(stem, 2, taken) == FirstFree(stem, n - 1, taken)
      decreases n == 2, |Ahead(stem, n - 1, taken)|
    {
      assert options[0] in taken && (n == 2 ==> options[1] in taken);
      if n > 2 {
        AheadShrinks(stem, n - 1, taken);
      }
      options := [Numbered(stem, n)];
      n := n + 1;
    }
    choice := if options[0] !in taken then options[0] else options[1];
  }

  /** The table's usable dirs, the first of each key and of each repository. */
  method ReadDirs(existing: seq<Line>) returns (byFile: map<Key, string>, byRepo: map<string, string>)
    requires forall l :: l in existing ==> Loaded(l)
    ensures byFile == ByFile(existing) && byRepo == ByRepo(existing)
  {
    byFile, byRepo := map[], map[];
    for i := 0 to |existing|
      invariant byFile == ByFile(existing[..i]) && byRepo == ByRepo(existing[..i])
    {
      var line := existing[i];
      assert existing[..i + 1][..i] == existing[..i] && existing[..i + 1][i] == line;
      if UsableDir(DirOf(line)) {
        var key := LineKey(line);
        if key !in byFile {
          byFile := byFile[key := DirOf(line).s];
        }
        if key.repo !in byRepo {
          byRepo := byRepo[key.repo := DirOf(line).s];
        }
      }
    }
    assert existing[..|existing|] == existing;
  }

  /** The allocator as the program runs it: first come in order of priority, first served. */
  method AssignDirs(pairings: seq<Pairing>, existing: seq<Line>,
                    explicitOrder: map<string, nat>, authorRank: map<string, nat>)
      returns (dirs: map<nat, string>)
    requires forall l :: l in existing ==> Loaded(l)
    ensures dirs == Dirs(pairings, Context(ByFile(existing), ByRepo(existing), explicitOrder, authorRank))
    ensures ValuesDiffer(dirs)
    ensures forall i: nat :: i in dirs <==> i < |pairings|
  {
    hide Order, Choose, Preferred, Stem, FirstFree, ByFile, ByRepo, ValuesDiffer, Assign, PriorityOf;
    var byFile, byRepo := ReadDirs(existing);
    var c := Context(byFile, byRepo, explicitOrder, authorRank);
    var order := Order(pairings, c);
    OrderIsOfPairings(pairings, c);
    dirs := map[];
    var taken: set<string> := {};
    AssignNone(order, pairings, c);
    for i := 0 to |order|
      invariant dirs == Assign(order[..i], pairings, c) && taken == dirs.Values
    {
      assert order[i] in order;
      var index := order[i].index;
      var p := pairings[index];
      var choice := Pick(Preferred(p, c), Stem(p), taken);
      ChooseIsPick(p, c, taken);
      AssignStep(order, i, pairings, c);
      taken := taken + {choice};
      dirs := dirs[index := choice];
    }
    assert order[..|order|] == order;
    EveryPairingHasItsOwnDir(pairings, c);
  }

  lemma AssignNone(order: seq<Ranked>, pairings: seq<Pairing>, c: Context)
    ensures Assign(order[..0], pairings, c) == map[]
  {
  }

  lemma AssignStep(order: seq<Ranked>, i: nat, pairings: seq<Pairing>, c: Context)
    requires i < |order| && DistinctIndexes(order)
    requires forall r :: r in order ==> r.index < |pairings|
    ensures var before, index := Assign(order[..i], pairings, c), order[i].index;
      var choice := Choose(pairings[index], c, before.Values);
      && Assign(order[..i + 1], pairings, c) == before[index := choice]
      && before[index := choice].Values == before.Values + {choice}
  {
    hide Choose;
    assert order[..i + 1][..i] == order[..i] && order[..i + 1][i] == order[i];
    var before, index := Assign(order[..i], pairings, c), order[i].index;
    NewIndex(order, i);
    AssignIsInjective(order[..i], pairings, c);
    AddedValue(before, index, Choose(pairings[index], c, before.Values));
  }

  lemma ChooseIsPick(p: Pairing, c: Context, taken: set<string>)
    ensures Choose(p, c, taken) ==
      if Preferred(p, c) !in taken then Preferred(p, c)
      else if Stem(p) !in taken then Stem(p) else FirstFree(Stem(p), 2, taken)
  {
  }

  lemma AddedValue(before: map<nat, string>, index: nat, choice: string)
    requires index !in before
    ensures before[index := choice].Values == before.Values + {choice}
  {
    var after := before[index := choice];
    forall v ensures v in after.Values <==> v in before.Values + {choice} {
      if v in before.Values {
        var k :| k in before && before[k] == v;
        assert after[k] == v;
      }
      assert after[index] == choice;
    }
  }

  // ----- What the allocator promises ------------------------------------------

  ghost predicate ValuesDiffer(dirs: map<nat, string>) {
    forall i, j :: i in dirs && j in dirs && i != j ==> dirs[i] != dirs[j]
  }

  ghost predicate HasIndex(order: seq<Ranked>, k: nat) {
    exists r :: r in order && r.index == k
  }

  ghost predicate DistinctIndexes(order: seq<Ranked>) {
    forall i, j :: 0 <= i < j < |order| ==> order[i].index != order[j].index
  }

  lemma NewIndex(order: seq<Ranked>, i: nat)
    requires DistinctIndexes(order) && i < |order|
    ensures !HasIndex(order[..i], order[i].index) && DistinctIndexes(order[..i])
  {
  }

  lemma HasIndexGrows(order: seq<Ranked>, i: nat)
    requires i < |order|
    ensures forall k :: HasIndex(order[..i + 1], k) <==> HasIndex(order[..i], k) || k == order[i].index
  {
    assert order[..i + 1] == order[..i] + [order[i]];
    forall k ensures HasIndex(order[..i + 1], k) <==> HasIndex(order[..i], k) || k == order[i].index {
      if HasIndex(order[..i], k) {
        var r :| r in order[..i] && r.index == k;
        assert r in order[..i + 1];
      }
      if k == order[i].index {
        assert order[i] in order[..i + 1];
      }
    }
  }

  lemma {:induction false} AssignIsInjective(order: seq<Ranked>, pairings: seq<Pairing>, c: Context)
    requires forall r :: r in order ==> r.index < |pairings|
    requires DistinctIndexes(order)
    ensures forall k :: k in Assign(order, pairings, c) <==> HasIndex(order, k)
    ensures ValuesDiffer(Assign(order, pairings, c))
  {
    hide Choose, ValuesDiffer, HasIndex;
    if order == [] {
      NoIndexes(order);
    } else {
      var n := |order| - 1;
      assert order[..n + 1] == order;
      NewIndex(order, n);
      HasIndexGrows(order, n);
      AssignIsInjective(order[..n], pairings, c);
      var before, dirs := Assign(order[..n], pairings, c), Assign(order, pairings, c);
      var index := order[n].index;
      ChosenIsNew(pairings[index], c, before);
      AddedDiffers(before, index, dirs[index]);
    }
  }

  lemma WithIndex(order: seq<Ranked>, k: nat) returns (r: Ranked)
    requires HasIndex(order, k)
    ensures r in order && r.index == k
  {
    r :| r in order && r.index == k;
  }

  lemma NoIndexes(order: seq<Ranked>)
    requires order == []
    ensures forall k :: !HasIndex(order, k)
    ensures ValuesDiffer(map[])
  {
  }

  lemma AddedDiffers(before: map<nat, string>, index: nat, choice: string)
    requires ValuesDiffer(before) && index !in before && forall k :: k in before ==> before[k] != choice
    ensures ValuesDiffer(before[index := choice])
  {
  }

  lemma ChosenIsNew(p: Pairing, c: Context, before: map<nat, string>)
    ensures forall k :: k in before ==> before[k] != Choose(p, c, before.Values)
  {
    forall k | k in before ensures before[k] in before.Values {
    }
  }

  /** Every pairing gets a directory, and no two get the same one. */
  lemma EveryPairingHasItsOwnDir(pairings: seq<Pairing>, c: Context)
    ensures forall i: nat :: i in Dirs(pairings, c) <==> i < |pairings|
    ensures ValuesDiffer(Dirs(pairings, c))
  {
    hide Order, Assign, ValuesDiffer, PriorityOf;
    var order := Order(pairings, c);
    OrderIsOfPairings(pairings, c);
    AssignIsInjective(order, pairings, c);
    forall i: nat
      ensures i in Dirs(pairings, c) <==> i < |pairings|
    {
      if i < |pairings| {
        assert Ranked(i, PriorityOf(pairings[i], c)) in order;
      }
    }
  }

  lemma PriorityLeIsTotal()
    ensures TotalOrder(RankedLe())
  {
    var le := RankedLe();
    forall a, b ensures le(a, b) || le(b, a) {
      StringLeTotal(a.priority.text, b.priority.text);
      StringLeTotal(a.priority.encoder, b.priority.encoder);
    }
    forall a, b, c | le(a, b) && le(b, c) ensures le(a, c) {
      PriorityLeTransitive(a.priority, b.priority, c.priority);
    }
  }

  lemma PriorityLeTransitive(a: Priority, b: Priority, c: Priority)
    requires PriorityLe(a, b) && PriorityLe(b, c)
    ensures PriorityLe(a, c)
  {
    if a.class_ == b.class_ == c.class_ && a.number == b.number == c.number {
      if a.text != b.text && b.text != c.text {
        StringLeTransitive(a.text, b.text, c.text);
        StringLeTotal(a.text, b.text);
      }
      if a.text == b.text == c.text {
        StringLeTransitive(a.encoder, b.encoder, c.encoder);
      }
    }
  }

  /** Positions in the order only ever add to what was assigned before them. */
  lemma {:induction false} EarlierDirsStay(order: seq<Ranked>, i: nat, pairings: seq<Pairing>, c: Context)
    requires forall r :: r in order ==> r.index < |pairings|
    requires DistinctIndexes(order)
    requires i < |order|
    ensures order[i].index in Assign(order, pairings, c)
    ensures Assign(order, pairings, c)[order[i].index]
         == Choose(pairings[order[i].index], c, Assign(order[..i], pairings, c).Values)
    decreases |order|
  {
    var front := order[..|order| - 1];
    if i == |order| - 1 {
      assert front == order[..i];
    } else {
      assert front[..i] == order[..i] && front[i] == order[i];
      EarlierDirsStay(front, i, pairings, c);
      assert order[|order| - 1].index != order[i].index;
    }
  }

  /** No two keys of the table share a directory. */
  ghost predicate TableDirsDiffer(byFile: map<Key, string>) {
    forall a, b :: a in byFile && b in byFile && a != b ==> byFile[a] != byFile[b]
  }

  ghost predicate KeysDiffer(pairings: seq<Pairing>) {
    forall i, j :: 0 <= i < j < |pairings| ==> KeyOf(pairings[i]) != KeyOf(pairings[j])
  }

  /** No two pairings of the table are given one directory by it. */
  ghost predicate ListedDirsDiffer(pairings: seq<Pairing>, c: Context) {
    forall i, j :: 0 <= i < j < |pairings| && KeyOf(pairings[i]) in c.byFile && KeyOf(pairings[j]) in c.byFile ==>
      c.byFile[KeyOf(pairings[i])] != c.byFile[KeyOf(pairings[j])]
  }

  lemma ListedApart(pairings: seq<Pairing>, c: Context, i: nat, j: nat)
    requires ListedDirsDiffer(pairings, c) && i < |pairings| && j < |pairings| && i != j
    requires KeyOf(pairings[i]) in c.byFile && KeyOf(pairings[j]) in c.byFile
    ensures c.byFile[KeyOf(pairings[i])] != c.byFile[KeyOf(pairings[j])]
  {
    hide KeyOf;
    var first, second := if i < j then i else j, if i < j then j else i;
    assert c.byFile[KeyOf(pairings[first])] != c.byFile[KeyOf(pairings[second])];
  }

  lemma TableApartIsListedApart(pairings: seq<Pairing>, c: Context)
    requires KeysDiffer(pairings) && TableDirsDiffer(c.byFile)
    ensures ListedDirsDiffer(pairings, c)
  {
    hide KeyOf;
  }

  lemma {:induction false} KnownComeFirst(order: seq<Ranked>, i: nat, pairings: seq<Pairing>, c: Context)
    requires order == Order(pairings, c) && i < |order| && order[i].priority.class_ == 0
    ensures forall j :: 0 <= j <= i ==>
      order[j].index < |pairings| && KeyOf(pairings[order[j].index]) in c.byFile
  {
    OrderIsOfPairings(pairings, c);
    PriorityLeIsTotal();
    SortSorts(RankAll(pairings, c), RankedLe());
    forall j | 0 <= j <= i
      ensures order[j].index < |pairings| && KeyOf(pairings[order[j].index]) in c.byFile
    {
      assert order[j] in order;
      if j < i {
        assert RankedLe()(order[j], order[i]);
      }
    }
  }

  lemma {:induction false} KnownKeepTheirs(order: seq<Ranked>, i: nat, pairings: seq<Pairing>, c: Context)
    requires order == Order(pairings, c) && i < |order| && order[i].priority.class_ == 0
    requires ListedDirsDiffer(pairings, c)
    ensures order[i].index < |pairings| && KeyOf(pairings[order[i].index]) in c.byFile
    ensures order[i].index in Dirs(pairings, c)
    ensures Dirs(pairings, c)[order[i].index] == c.byFile[KeyOf(pairings[order[i].index])]
    decreases i
  {
    hide Order, Assign, Choose, Preferred, PriorityOf, KeyOf, HasIndex, ValuesDiffer, ListedDirsDiffer;
    OrderIsOfPairings(pairings, c);
    KnownComeFirst(order, i, pairings, c);
    EarlierDirsStay(order, i, pairings, c);
    NewIndex(order, i);
    AssignIsInjective(order[..i], pairings, c);
    var p := pairings[order[i].index];
    var before := Assign(order[..i], pairings, c);
    PreferredIsByFile(p, c);
    forall k | k in before
      ensures before[k] != Preferred(p, c)
    {
      var r := WithIndex(order[..i], k);
      var j :| 0 <= j < i && order[..i][j] == r;
      KnownClassIsZero(order, j, pairings, c);
      KnownKeepTheirs(order, j, pairings, c);
      SameInPrefix(order, i, j, pairings, c);
      ListedApart(pairings, c, order[j].index, order[i].index);
    }
    ChoosesPreferred(p, c, before);
  }

  lemma SameInPrefix(order: seq<Ranked>, i: nat, j: nat, pairings: seq<Pairing>, c: Context)
    requires DistinctIndexes(order) && j < i < |order|
    requires forall r :: r in order ==> r.index < |pairings|
    ensures order[j].index in Assign(order[..i], pairings, c)
    ensures order[j].index in Assign(order, pairings, c)
    ensures Assign(order[..i], pairings, c)[order[j].index] == Assign(order, pairings, c)[order[j].index]
  {
    hide Choose;
    NewIndex(order, i);
    EarlierDirsStay(order[..i], j, pairings, c);
    EarlierDirsStay(order, j, pairings, c);
    assert order[..i][..j] == order[..j] && order[..i][j] == order[j];
  }

  lemma PreferredIsByFile(p: Pairing, c: Context)
    requires KeyOf(p) in c.byFile
    ensures Preferred(p, c) == c.byFile[KeyOf(p)]
  {
  }

  lemma ChoosesPreferred(p: Pairing, c: Context, before: map<nat, string>)
    requires forall k :: k in before ==> before[k] != Preferred(p, c)
    ensures Choose(p, c, before.Values) == Preferred(p, c)
  {
  }

  lemma KnownClassIsZero(order: seq<Ranked>, j: nat, pairings: seq<Pairing>, c: Context)
    requires order == Order(pairings, c) && j < |order| && order[j].index < |pairings|
    requires KeyOf(pairings[order[j].index]) in c.byFile
    ensures order[j].priority.class_ == 0
  {
    OrderIsOfPairings(pairings, c);
    assert order[j] in order;
  }

  lemma DifferentKeys(pairings: seq<Pairing>, i: nat, j: nat)
    requires KeysDiffer(pairings) && i < |pairings| && j < |pairings| && i != j
    ensures KeyOf(pairings[i]) != KeyOf(pairings[j])
  {
    if i < j {
      assert KeyOf(pairings[i]) != KeyOf(pairings[j]);
    } else {
      assert KeyOf(pairings[j]) != KeyOf(pairings[i]);
    }
  }

  /**
   A pairing whose key has a directory in the table keeps it, whatever other pairings come
   or go, as long as the table gives no directory to two pairings.
   */
  lemma KnownPairingKeepsItsDir(pairings: seq<Pairing>, c: Context, i: nat)
    requires i < |pairings| && ListedDirsDiffer(pairings, c)
    requires KeyOf(pairings[i]) in c.byFile
    ensures i in Dirs(pairings, c) && Dirs(pairings, c)[i] == c.byFile[KeyOf(pairings[i])]
  {
    OrderIsOfPairings(pairings, c);
    var order := Order(pairings, c);
    var r := Ranked(i, PriorityOf(pairings[i], c));
    assert r in order;
    var k :| 0 <= k < |order| && order[k] == r;
    KnownKeepTheirs(order, k, pairings, c);
  }

  /** Every pairing of the table keeps its directory exactly when the table gives none of them twice. */
  lemma AllKnownKeepExactly(pairings: seq<Pairing>, c: Context)
    ensures forall i: nat :: i < |pairings| ==> i in Dirs(pairings, c)
    ensures
      (forall i: nat :: i < |pairings| && KeyOf(pairings[i]) in c.byFile ==>
        Dirs(pairings, c)[i] == c.byFile[KeyOf(pairings[i])])
      <==> ListedDirsDiffer(pairings, c)
  {
    hide Dirs, KeyOf;
    EveryPairingHasItsOwnDir(pairings, c);
    if ListedDirsDiffer(pairings, c) {
      forall i: nat | i < |pairings| && KeyOf(pairings[i]) in c.byFile
        ensures Dirs(pairings, c)[i] == c.byFile[KeyOf(pairings[i])]
      {
        KnownPairingKeepsItsDir(pairings, c, i);
      }
    }
  }
}
