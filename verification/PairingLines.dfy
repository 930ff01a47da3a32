/**
 Regenerating the vision pairing table (`build_lines` in scripts/models/vision_pairings.py):
 a run over its own output changes nothing.
 */
module PairingLines {
  import opened Results
  import opened Text
  import opened Sorting
  import opened PairingTable

  /**
   What a run is given besides pairings and table: the listed repositories and authors, the
   label of a repository, and which strings are dates.
   */
  datatype Sources = Sources(
    explicit: seq<string>,
    authors: seq<string>,
    labelOf: string -> string,
    isDate: string -> bool)

  // ----- One line -------------------------------------------------------------

  function Strings(items: seq<string>): seq<Json> {
    seq(|items|, i requires 0 <= i < |items| => Str(items[i]))
  }

  function StringOrder(): (string, string) -> bool {
    (a: string, b: string) => StringLe(a, b)
  }

  function MakeLine(p: Pairing, title: string, dir: string, checkedAt: Json): Line {
    map["model_repo" := Str(p.repo),
        "model_files" := Arr(Strings(Sort(p.modelFiles, StringOrder()))),
        "architecture" := Str(p.architecture),
        "embedding_length" := Number(p.width as real),
        "label" := Str(title),
        "encoder" := Obj(map[
          "dir" := Str(dir),
          "repo" := Str(p.repo),
          "revision" := Str(p.revision),
          "filename" := Str(p.encoder),
          "size_bytes" := Number(p.size as real),
          "sha256" := Str(p.sha256),
          "projector" := Str(p.projector),
          "projection_dim" := Number(p.dim as real)]),
        "checked_at" := checkedAt]
  }

  /** The date a line carries: the old one while nothing else in it changed, else today's. */
  function DateFor(line: Line, prior: Option<Line>, isDate: string -> bool, today: string): string {
    if prior.Some? && WithoutDate(prior.value) == WithoutDate(line)
       && Get(prior.value, "checked_at").Str? && isDate(Get(prior.value, "checked_at").s)
    then Get(prior.value, "checked_at").s else today
  }

  function LineFor(p: Pairing, dir: string, prior: Option<Line>, src: Sources, today: string): Line {
    var line := MakeLine(p, src.labelOf(p.repo), dir, Null);
    line["checked_at" := Str(DateFor(line, prior, src.isDate, today))]
  }

  // ----- The table ------------------------------------------------------------

  predicate AllLoaded(lines: seq<Line>) {
    forall l :: l in lines ==> Loaded(l)
  }

  /** The last line of each key. */
  function ByKey(lines: seq<Line>): map<Key, Line>
    requires AllLoaded(lines)
  {
    if lines == [] then map[]
    else ByKey(lines[..|lines| - 1])[LineKey(lines[|lines| - 1]) := lines[|lines| - 1]]
  }

  function Lookup(table: map<Key, Line>, k: Key): Option<Line> {
    if k in table then Some(table[k]) else None
  }

  function TextOf(j: Json): string {
    if j.Str? then j.s else ""
  }

  function FileNameOf(line: Line): string {
    var encoder := Get(line, "encoder");
    if encoder.Obj? then TextOf(Get(encoder.fields, "filename")) else ""
  }

  predicate LineLe(a: Line, b: Line) {
    var repoA, repoB := TextOf(Get(a, "model_repo")), TextOf(Get(b, "model_repo"));
    if repoA != repoB then StringLe(repoA, repoB) else StringLe(FileNameOf(a), FileNameOf(b))
  }

  function LineOrder(): (Line, Line) -> bool {
    (a: Line, b: Line) => LineLe(a, b)
  }

  function ContextFor(existing: seq<Line>, src: Sources): Context
    requires AllLoaded(existing)
  {
    ContextOf(existing, src.explicit, src.authors)
  }

  function DirAt(dirs: map<nat, string>, i: nat): string {
    if i in dirs then dirs[i] else ""
  }

  /** The lines of the pairings, in the pairings' own order. */
  function Lines(pairings: seq<Pairing>, existing: seq<Line>, src: Sources, today: string): (r: seq<Line>)
    requires AllLoaded(existing)
    ensures |r| == |pairings|
    ensures forall i :: 0 <= i < |pairings| ==>
      r[i] == LineFor(pairings[i], DirAt(Dirs(pairings, ContextFor(existing, src)), i),
                      Lookup(ByKey(existing), KeyOf(pairings[i])), src, today)
  {
    var dirs, byKey := Dirs(pairings, ContextFor(existing, src)), ByKey(existing);
    seq(|pairings|, i requires 0 <= i < |pairings| =>
      LineFor(pairings[i], DirAt(dirs, i), Lookup(byKey, KeyOf(pairings[i])), src, today))
  }

  function Table(pairings: seq<Pairing>, existing: seq<Line>, src: Sources, today: string): seq<Line>
    requires AllLoaded(existing)
  {
    Sort(Lines(pairings, existing, src, today), LineOrder())
  }

  // ----- What a table says, written out ---------------------------------------

  /** The files, each as often as given, in the order of their names. */
  ghost predicate ListsFiles(listed: Json, files: seq<string>) {
    exists names: seq<string> :: multiset(names) == multiset(files)
      && (forall i, j :: 0 <= i < j < |names| ==> StringLe(names[i], names[j]))
      && listed.Arr? && |listed.items| == |names|
      && forall i :: 0 <= i < |names| ==> listed.items[i] == Str(names[i])
  }

  /** Everything a line says of its pairing; `title` is the label and `dir` the directory it was given. */
  ghost predicate Describes(l: Line, p: Pairing, title: string, dir: string) {
    && l.Keys == {"model_repo", "model_files", "architecture", "embedding_length", "label", "encoder", "checked_at"}
    && l["model_repo"] == Str(p.repo) && ListsFiles(l["model_files"], p.modelFiles)
    && l["architecture"] == Str(p.architecture) && l["embedding_length"] == Number(p.width as real)
    && l["label"] == Str(title) && l["encoder"].Obj?
    && var e := l["encoder"].fields;
    && e.Keys == {"dir", "repo", "revision", "filename", "size_bytes", "sha256", "projector", "projection_dim"}
    && e["dir"] == Str(dir) && e["repo"] == Str(p.repo) && e["revision"] == Str(p.revision)
    && e["filename"] == Str(p.encoder) && e["size_bytes"] == Number(p.size as real)
    && e["sha256"] == Str(p.sha256) && e["projector"] == Str(p.projector)
    && e["projection_dim"] == Number(p.dim as real)
  }

  /** `prior` is the last line of `existing` for the pairing, None when there is none. */
  ghost predicate IsPrior(existing: seq<Line>, p: Pairing, prior: Option<Line>)
    requires AllLoaded(existing)
  {
    match prior
    case None => forall i :: 0 <= i < |existing| ==> !IsLineOf(existing[i], p)
    case Some(l) =>
      exists i :: 0 <= i < |existing| && existing[i] == l && IsLineOf(l, p)
        && forall j :: i < j < |existing| ==> !IsLineOf(existing[j], p)
  }

  /** The line is of the pairing's repository, whatever its case, and of its encoder. */
  predicate IsLineOf(l: Line, p: Pairing)
    requires Loaded(l)
  {
    && Lower(l["model_repo"].s) == Lower(p.repo)
    && "filename" in l["encoder"].fields && l["encoder"].fields["filename"] == Str(p.encoder)
  }

  ghost predicate AgreesButForDate(a: Line, b: Line) {
    forall k :: k != "checked_at" ==> (k in a <==> k in b) && (k in a && k in b ==> a[k] == b[k])
  }

  /** The date of a line: its predecessor's while nothing else changed and that was a date, else today. */
  ghost predicate DatedRight(l: Line, prior: Option<Line>, isDate: string -> bool, today: string) {
    "checked_at" in l
    && if prior.Some? && AgreesButForDate(prior.value, l)
          && "checked_at" in prior.value && prior.value["checked_at"].Str? && isDate(prior.value["checked_at"].s)
       then l["checked_at"] == prior.value["checked_at"]
       else l["checked_at"] == Str(today)
  }

  ghost predicate LineIsRight(l: Line, p: Pairing, dir: string, existing: seq<Line>, src: Sources, today: string)
    requires AllLoaded(existing)
  {
    && Describes(l, p, src.labelOf(p.repo), dir)
    && exists prior :: IsPrior(existing, p, prior) && DatedRight(l, prior, src.isDate, today)
  }

  /** The table holds one right line for each pairing, in some order. */
  ghost predicate SaysAll(
    table: seq<Line>, pairings: seq<Pairing>, dirs: map<nat, string>, existing: seq<Line>, src: Sources, today: string)
    requires AllLoaded(existing)
  {
    exists lines: seq<Line> :: multiset(lines) == multiset(table) && |lines| == |pairings|
      && forall i :: 0 <= i < |pairings| ==>
        i in dirs && LineIsRight(lines[i], pairings[i], dirs[i], existing, src, today)
  }

  /** By repository, and within one by the encoder's file. */
  ghost predicate InOrder(table: seq<Line>) {
    forall i, j :: 0 <= i < j < |table| && Loaded(table[i]) && Loaded(table[j]) ==>
      var a, b := table[i], table[j];
      "filename" in a["encoder"].fields && a["encoder"].fields["filename"].Str?
      && "filename" in b["encoder"].fields && b["encoder"].fields["filename"].Str? ==>
        if a["model_repo"] != b["model_repo"] then StringLe(a["model_repo"].s, b["model_repo"].s)
        else StringLe(a["encoder"].fields["filename"].s, b["encoder"].fields["filename"].s)
  }

  lemma SortedStrings(files: seq<string>)
    ensures ListsFiles(Arr(Strings(Sort(files, StringOrder()))), files)
  {
    var names := Sort(files, StringOrder());
    SortPermutes(files, StringOrder());
    StringOrderIsTotal();
    SortSorts(files, StringOrder());
    assert forall i, j :: 0 <= i < j < |names| ==> StringOrder()(names[i], names[j]);
    assert multiset(names) == multiset(files);
  }

  lemma StringOrderIsTotal()
    ensures TotalOrder(StringOrder())
  {
    forall a, b ensures StringOrder()(a, b) || StringOrder()(b, a) {
      StringLeTotal(a, b);
    }
    forall a, b, c | StringOrder()(a, b) && StringOrder()(b, c) ensures StringOrder()(a, c) {
      StringLeTransitive(a, b, c);
    }
  }

  /** The index of the last line of the key, or -1. */
  lemma {:induction false} LastOfKey(existing: seq<Line>, k: Key) returns (i: int)
    requires AllLoaded(existing)
    ensures -1 <= i < |existing|
    ensures Lookup(ByKey(existing), k) == if i < 0 then None else Some(existing[i])
    ensures i >= 0 ==> LineKey(existing[i]) == k
    ensures forall j :: i < j < |existing| ==> LineKey(existing[j]) != k
  {
    hide LineKey;
    i := -1;
    if existing != [] {
      var n := |existing| - 1;
      if LineKey(existing[n]) == k {
        i := n;
      } else {
        i := LastOfKey(existing[..n], k);
        assert forall j :: i < j < n ==> existing[j] == existing[..n][j];
      }
    }
  }

  lemma LookupIsPrior(existing: seq<Line>, p: Pairing)
    requires AllLoaded(existing)
    ensures IsPrior(existing, p, Lookup(ByKey(existing), KeyOf(p)))
  {
    hide ByKey, Lookup, LineKey, KeyOf, IsLineOf;
    var i := LastOfKey(existing, KeyOf(p));
    forall j | 0 <= j < |existing| ensures LineKey(existing[j]) == KeyOf(p) <==> IsLineOf(existing[j], p) {
      KeyIsLineOf(existing[j], p);
    }
  }

  lemma KeyIsLineOf(l: Line, p: Pairing)
    requires Loaded(l)
    ensures LineKey(l) == KeyOf(p) <==> IsLineOf(l, p)
  {
  }

  lemma MadeSays(p: Pairing, title: string, dir: string, checkedAt: Json)
    ensures Describes(MakeLine(p, title, dir, checkedAt), p, title, dir)
    ensures "checked_at" in MakeLine(p, title, dir, checkedAt)
  {
    hide Sort, ListsFiles, Strings;
    SortedStrings(p.modelFiles);
  }

  lemma OnlyTheDate(p: Pairing, title: string, dir: string, date: Json)
    ensures MakeLine(p, title, dir, Null)["checked_at" := date] == MakeLine(p, title, dir, date)
  {
    hide Sort, Strings;
  }

  lemma DateIsRight(p: Pairing, dir: string, prior: Option<Line>, src: Sources, today: string)
    ensures DatedRight(LineFor(p, dir, prior, src, today), prior, src.isDate, today)
  {
    var made := MakeLine(p, src.labelOf(p.repo), dir, Null);
    MadeSays(p, src.labelOf(p.repo), dir, Null);
    hide MakeLine;
    var l := LineFor(p, dir, prior, src, today);
    if prior.Some? {
      OutsideDates(prior.value, made, l);
    }
  }

  lemma OutsideDates(a: Line, made: Line, l: Line)
    requires "checked_at" in made && "checked_at" in l && l == made["checked_at" := l["checked_at"]]
    ensures WithoutDate(a) == WithoutDate(made) <==> AgreesButForDate(a, l)
  {
    if AgreesButForDate(a, l) {
      assert forall k :: k in WithoutDate(a) <==> k in WithoutDate(made);
    } else if WithoutDate(a) == WithoutDate(made) {
      forall k | k != "checked_at"
        ensures (k in a <==> k in l) && (k in a && k in l ==> a[k] == l[k])
      {
        assert k in a <==> k in WithoutDate(a);
        assert k in made <==> k in WithoutDate(made);
      }
    }
  }

  lemma LineForIsRight(p: Pairing, dir: string, existing: seq<Line>, src: Sources, today: string)
    requires AllLoaded(existing)
    ensures LineIsRight(LineFor(p, dir, Lookup(ByKey(existing), KeyOf(p)), src, today), p, dir, existing, src, today)
  {
    hide ByKey, KeyOf, MakeLine, Describes, IsPrior, DatedRight, DateFor;
    var prior := Lookup(ByKey(existing), KeyOf(p));
    LookupIsPrior(existing, p);
    DateIsRight(p, dir, prior, src, today);
    var made := MakeLine(p, src.labelOf(p.repo), dir, Null);
    var date := Str(DateFor(made, prior, src.isDate, today));
    OnlyTheDate(p, src.labelOf(p.repo), dir, date);
    MadeSays(p, src.labelOf(p.repo), dir, date);
  }

  lemma TableSaysAll(pairings: seq<Pairing>, existing: seq<Line>, src: Sources, today: string)
    requires AllLoaded(existing)
    ensures SaysAll(Table(pairings, existing, src, today), pairings, Dirs(pairings, ContextFor(existing, src)),
                    existing, src, today)
    ensures InOrder(Table(pairings, existing, src, today))
  {
    hide Dirs, LineFor, LineIsRight, ByKey, KeyOf, Sort;
    var c, lines := ContextFor(existing, src), Lines(pairings, existing, src, today);
    EveryPairingHasItsOwnDir(pairings, c);
    SortPermutes(lines, LineOrder());
    forall i | 0 <= i < |pairings|
      ensures LineIsRight(lines[i], pairings[i], Dirs(pairings, c)[i], existing, src, today)
    {
      LineForIsRight(pairings[i], DirAt(Dirs(pairings, c), i), existing, src, today);
    }
    LineLeIsTotal();
    SortSorts(lines, LineOrder());
    var table := Table(pairings, existing, src, today);
    assert forall i, j :: 0 <= i < j < |table| ==> LineOrder()(table[i], table[j]);
  }

  /** Regenerate the table. */
  method BuildLines(pairings: seq<Pairing>, existing: seq<Line>, src: Sources, today: string)
      returns (table: seq<Line>)
    requires AllLoaded(existing)
    ensures table == Table(pairings, existing, src, today)
    ensures |table| == |pairings|
    ensures SaysAll(table, pairings, Dirs(pairings, ContextFor(existing, src)), existing, src, today)
    ensures InOrder(table)
  {
    hide Dirs, Ranks, ByFile, ByRepo, LineFor, LineLe, SaysAll, InOrder;
    var oldByKey: map<Key, Line> := map[];
    for i := 0 to |existing|
      invariant oldByKey == ByKey(existing[..i])
    {
      assert existing[..i + 1][..i] == existing[..i] && existing[..i + 1][i] == existing[i];
      oldByKey := oldByKey[LineKey(existing[i]) := existing[i]];
    }
    assert existing[..|existing|] == existing;
    var dirs := AssignDirs(pairings, existing, Ranks(src.explicit), Ranks(src.authors));
    var lines: seq<Line> := [];
    for i := 0 to |pairings|
      invariant lines == Lines(pairings, existing, src, today)[..i]
    {
      var prior := Lookup(oldByKey, KeyOf(pairings[i]));
      lines := lines + [LineFor(pairings[i], DirAt(dirs, i), prior, src, today)];
    }
    assert lines == Lines(pairings, existing, src, today);
    table := Sort(lines, LineOrder());
    SortPermutes(lines, LineOrder());
    TableSaysAll(pairings, existing, src, today);
  }

  lemma LineLeIsTotal()
    ensures TotalOrder(LineOrder())
  {
    var le := LineOrder();
    forall a, b ensures le(a, b) || le(b, a) {
      StringLeTotal(TextOf(Get(a, "model_repo")), TextOf(Get(b, "model_repo")));
      StringLeTotal(FileNameOf(a), FileNameOf(b));
    }
    forall a, b, c | le(a, b) && le(b, c) ensures le(a, c) {
      LineLeTransitive(a, b, c);
    }
  }

  lemma LineLeTransitive(a: Line, b: Line, c: Line)
    requires LineLe(a, b) && LineLe(b, c)
    ensures LineLe(a, c)
  {
    hide StringLe, FileNameOf, TextOf, Get;
    var x, y, z := TextOf(Get(a, "model_repo")), TextOf(Get(b, "model_repo")), TextOf(Get(c, "model_repo"));
    if x == y == z {
      StringLeTransitive(FileNameOf(a), FileNameOf(b), FileNameOf(c));
    } else if x != y && y != z {
      StringLeTransitive(x, y, z);
      StringLeTotal(x, y);
    }
  }

  // ----- What a table says about directories ----------------------------------

  /** The directory recorded for a key is that of a line with that key. */
  lemma {:induction false} ByFileFromALine(lines: seq<Line>, k: Key)
    requires AllLoaded(lines) && k in ByFile(lines)
    ensures exists l :: l in lines && LineKey(l) == k && UsableDir(DirOf(l)) && DirOf(l).s == ByFile(lines)[k]
  {
    hide LineKey, DirOf;
    var front, last := lines[..|lines| - 1], lines[|lines| - 1];
    if k in ByFile(front) {
      ByFileFromALine(front, k);
      var l :| l in front && LineKey(l) == k && UsableDir(DirOf(l)) && DirOf(l).s == ByFile(front)[k];
      assert l in lines;
    } else {
      assert last in lines;
    }
  }

  lemma {:induction false} ByFileHasEveryLine(lines: seq<Line>, l: Line)
    requires AllLoaded(lines) && l in lines && UsableDir(DirOf(l))
    ensures LineKey(l) in ByFile(lines)
  {
    hide UsableDir, LineKey, DirOf;
    var front, last := lines[..|lines| - 1], lines[|lines| - 1];
    assert lines == front + [last];
    if l in front {
      ByFileHasEveryLine(front, l);
    }
  }

  lemma {:induction false} ByKeyFromALine(lines: seq<Line>, k: Key)
    requires AllLoaded(lines) && k in ByKey(lines)
    ensures ByKey(lines)[k] in lines && LineKey(ByKey(lines)[k]) == k
  {
    hide LineKey;
    if k != LineKey(lines[|lines| - 1]) {
      ByKeyFromALine(lines[..|lines| - 1], k);
    }
  }

  lemma {:induction false} ByKeyHasEveryLine(lines: seq<Line>, l: Line)
    requires AllLoaded(lines) && l in lines
    ensures LineKey(l) in ByKey(lines)
  {
    hide LineKey;
    var front, last := lines[..|lines| - 1], lines[|lines| - 1];
    assert lines == front + [last];
    if l in front {
      ByKeyHasEveryLine(front, l);
    }
  }

  /** Usable directories stand for one key each, and a key has one of them. */
  ghost predicate OneDirPerKey(lines: seq<Line>)
    requires AllLoaded(lines)
  {
    forall a, b :: a in lines && b in lines && UsableDir(DirOf(a)) && UsableDir(DirOf(b)) ==>
      (LineKey(a) == LineKey(b) <==> DirOf(a) == DirOf(b))
  }

  /**
   With one usable directory per key in the table, a pairing that is in it keeps its
   directory whatever other pairings are added or removed.
   */
  lemma TablePairingKeepsItsDir(pairings: seq<Pairing>, existing: seq<Line>, src: Sources, i: nat, line: Line)
    requires AllLoaded(existing) && OneDirPerKey(existing) && KeysDiffer(pairings) && i < |pairings|
    requires line in existing && LineKey(line) == KeyOf(pairings[i]) && UsableDir(DirOf(line))
    ensures DirAt(Dirs(pairings, ContextFor(existing, src)), i) == DirOf(line).s
  {
    hide LineKey, DirOf, KeyOf, Dirs, ByFile, ByRepo, KeysDiffer;
    var byFile := ByFile(existing);
    forall a, b | a in byFile && b in byFile && a != b
      ensures byFile[a] != byFile[b]
    {
      ByFileFromALine(existing, a);
      ByFileFromALine(existing, b);
      var la :| la in existing && LineKey(la) == a && UsableDir(DirOf(la)) && DirOf(la).s == byFile[a];
      var lb :| lb in existing && LineKey(lb) == b && UsableDir(DirOf(lb)) && DirOf(lb).s == byFile[b];
      assert DirOf(la) != DirOf(lb);
    }
    ByFileHasEveryLine(existing, line);
    ByFileFromALine(existing, LineKey(line));
    TableApartIsListedApart(pairings, ContextFor(existing, src));
    KnownPairingKeepsItsDir(pairings, ContextFor(existing, src), i);
  }

  // ----- The directories are usable -------------------------------------------

  lemma {:induction false} ByRepoIsUsable(lines: seq<Line>, repo: string)
    requires AllLoaded(lines) && repo in ByRepo(lines)
    ensures UsableDir(Str(ByRepo(lines)[repo]))
  {
    var front := lines[..|lines| - 1];
    if repo in ByRepo(front) {
      ByRepoIsUsable(front, repo);
    }
  }

  predicate PlainName(s: string) {
    s != "" && '/' !in s && s[0] != '.'
  }

  lemma LowerOfName(s: string)
    requires IsName(s)
    ensures PlainName(Lower(s)) && Lower(s)[0] != '-'
    ensures forall i :: 0 <= i < |s| ==> Lower(s)[i] != '/'
  {
    forall i | 0 <= i < |s| ensures Lower(s)[i] != '/' {
    }
  }

  lemma {:induction false} SlashOfLower(s: string)
    ensures Slash(Lower(s)) == Slash(s)
  {
    if s != "" && s[0] != '/' {
      assert Lower(s)[1..] == Lower(s[1..]);
      SlashOfLower(s[1..]);
    }
  }

  lemma BareDirIsPlain(repo: string)
    requires IsRepo(repo)
    ensures PlainName(BareDir(repo))
  {
    var name := Lower(NameOf(repo));
    LowerOfName(NameOf(repo));
    if |name| >= 5 && name[|name| - 5..] == "-gguf" {
      assert name[|name| - 5..][0] == '-';
      assert BareDir(repo) == name[..|name| - 5];
      assert forall i :: 0 <= i < |name| ==> name[i] != '/';
    }
  }

  lemma StemIsPlain(p: Pairing)
    requires IsRepo(p.repo)
    ensures PlainName(Stem(p))
  {
    BareDirIsPlain(p.repo);
    SlashOfLower(p.repo);
    var author := AuthorOf(p.repo);
    assert AuthorOf(Lower(p.repo)) == Lower(author);
    LowerOfName(author);
    assert Stem(p)[0] == Lower(author)[0];
  }

  lemma {:induction false} DecimalHasNoSlash(n: nat)
    ensures '/' !in Decimal(n)
  {
    if n >= 10 {
      DecimalHasNoSlash(n / 10);
    }
  }

  lemma NumberedIsPlain(stem: string, n: nat)
    requires PlainName(stem)
    ensures PlainName(Numbered(stem, n))
  {
    DecimalHasNoSlash(n);
    assert Numbered(stem, n)[0] == stem[0];
  }

  lemma ChosenIsUsable(p: Pairing, existing: seq<Line>, src: Sources, taken: set<string>)
    requires AllLoaded(existing) && IsRepo(p.repo)
    ensures UsableDir(Str(Choose(p, ContextFor(existing, src), taken)))
  {
    hide ByFile, ByRepo, BareDir, Stem, Numbered, KeyOf;
    var c := ContextFor(existing, src);
    BareDirIsPlain(p.repo);
    StemIsPlain(p);
    if KeyOf(p) in c.byFile {
      ByFileFromALine(existing, KeyOf(p));
    }
    if Lower(p.repo) in c.byRepo {
      ByRepoIsUsable(existing, Lower(p.repo));
    }
    if Preferred(p, c) in taken && Stem(p) in taken {
      var k: nat :| 2 <= k && FirstFree(Stem(p), 2, taken) == Numbered(Stem(p), k);
      NumberedIsPlain(Stem(p), k);
    }
  }

  ghost predicate Repos(pairings: seq<Pairing>) {
    forall i :: 0 <= i < |pairings| ==> IsRepo(pairings[i].repo)
  }

  /** Every directory handed out can be read back from the table as a directory. */
  lemma EveryDirIsUsable(pairings: seq<Pairing>, existing: seq<Line>, src: Sources, i: nat)
    requires AllLoaded(existing) && Repos(pairings) && i < |pairings|
    ensures UsableDir(Str(DirAt(Dirs(pairings, ContextFor(existing, src)), i)))
  {
    hide Order, Assign, Choose, UsableDir, PriorityOf, ContextFor;
    var c := ContextFor(existing, src);
    OrderIsOfPairings(pairings, c);
    var order := Order(pairings, c);
    var r := Ranked(i, PriorityOf(pairings[i], c));
    assert r in order;
    var k :| 0 <= k < |order| && order[k] == r;
    EarlierDirsStay(order, k, pairings, c);
    ChosenIsUsable(pairings[i], existing, src, Assign(order[..k], pairings, c).Values);
  }

  // ----- The fixed point ------------------------------------------------------

  lemma LineIsRead(p: Pairing, dir: string, prior: Option<Line>, src: Sources, today: string)
    ensures var line := LineFor(p, dir, prior, src, today);
      && Loaded(line) && LineKey(line) == KeyOf(p) && DirOf(line) == Str(dir)
  {
    hide Strings, Sort, DateFor;
  }

  /** A line whose date is a date is what a later run makes of it. */
  lemma LineStays(p: Pairing, dir: string, prior: Option<Line>, src: Sources, d1: string, d2: string)
    requires src.isDate(d1)
    ensures var line := LineFor(p, dir, prior, src, d1); LineFor(p, dir, Some(line), src, d2) == line
  {
    hide Strings, Sort;
    var made := MakeLine(p, src.labelOf(p.repo), dir, Null);
    var date := DateFor(made, prior, src.isDate, d1);
    var line := LineFor(p, dir, prior, src, d1);
    assert WithoutDate(line) == WithoutDate(made);
    assert Get(line, "checked_at") == Str(date) && src.isDate(date);
  }

  lemma LinesAreLoaded(pairings: seq<Pairing>, existing: seq<Line>, src: Sources, today: string)
    requires AllLoaded(existing)
    ensures AllLoaded(Lines(pairings, existing, src, today))
    ensures AllLoaded(Table(pairings, existing, src, today))
    ensures forall l :: l in Table(pairings, existing, src, today) <==> l in Lines(pairings, existing, src, today)
  {
    hide LineFor, Dirs, LineLe, Loaded;
    var lines := Lines(pairings, existing, src, today);
    forall l | l in lines ensures Loaded(l) {
      var i :| 0 <= i < |lines| && lines[i] == l;
      LineIsRead(pairings[i], DirAt(Dirs(pairings, ContextFor(existing, src)), i),
                 Lookup(ByKey(existing), KeyOf(pairings[i])), src, today);
    }
    SortPermutes(lines, LineOrder());
  }

  /** What line `i` of a run says, before the lines are sorted. */
  lemma LineSays(pairings: seq<Pairing>, existing: seq<Line>, src: Sources, today: string, i: nat)
    requires AllLoaded(existing) && i < |pairings|
    ensures var line := Lines(pairings, existing, src, today)[i];
      && Loaded(line) && LineKey(line) == KeyOf(pairings[i])
      && DirOf(line) == Str(DirAt(Dirs(pairings, ContextFor(existing, src)), i))
  {
    hide LineFor, Dirs, LineKey, DirOf, KeyOf, Loaded;
    LineIsRead(pairings[i], DirAt(Dirs(pairings, ContextFor(existing, src)), i),
               Lookup(ByKey(existing), KeyOf(pairings[i])), src, today);
  }

  /** The generated table has one usable directory for each of its keys. */
  lemma TableHasOneDirPerKey(pairings: seq<Pairing>, existing: seq<Line>, src: Sources, today: string)
    requires AllLoaded(existing) && Repos(pairings) && KeysDiffer(pairings)
    ensures AllLoaded(Table(pairings, existing, src, today))
    ensures OneDirPerKey(Table(pairings, existing, src, today))
  {
    hide Dirs, LineKey, DirOf, KeyOf, Loaded, UsableDir, ValuesDiffer, KeysDiffer;
    LinesAreLoaded(pairings, existing, src, today);
    var lines, table := Lines(pairings, existing, src, today), Table(pairings, existing, src, today);
    forall a, b | a in table && b in table
      ensures LineKey(a) == LineKey(b) <==> DirOf(a) == DirOf(b)
    {
      var i :| 0 <= i < |lines| && lines[i] == a;
      var j :| 0 <= j < |lines| && lines[j] == b;
      TwoLinesDiffer(pairings, existing, src, today, i, j);
    }
  }

  lemma TwoLinesDiffer(pairings: seq<Pairing>, existing: seq<Line>, src: Sources, today: string, i: nat, j: nat)
    requires AllLoaded(existing) && KeysDiffer(pairings) && i < |pairings| && j < |pairings|
    ensures var lines := Lines(pairings, existing, src, today);
      && Loaded(lines[i]) && Loaded(lines[j])
      && (LineKey(lines[i]) == LineKey(lines[j]) <==> DirOf(lines[i]) == DirOf(lines[j]))
  {
    hide Dirs, LineKey, DirOf, KeyOf, Loaded, LineFor, KeysDiffer;
    LineSays(pairings, existing, src, today, i);
    LineSays(pairings, existing, src, today, j);
    EveryPairingHasItsOwnDir(pairings, ContextFor(existing, src));
    if i != j {
      DifferentKeys(pairings, i, j);
    }
  }

  /** In the second run every pairing finds its own first line again. */
  lemma SecondRunFinds(pairings: seq<Pairing>, existing: seq<Line>, src: Sources, d1: string, i: nat)
    requires AllLoaded(existing) && Repos(pairings) && KeysDiffer(pairings) && i < |pairings|
    ensures var first, table := Lines(pairings, existing, src, d1), Table(pairings, existing, src, d1);
      && AllLoaded(table)
      && Lookup(ByKey(table), KeyOf(pairings[i])) == Some(first[i])
      && DirAt(Dirs(pairings, ContextFor(table, src)), i) == DirAt(Dirs(pairings, ContextFor(existing, src)), i)
  {
    hide Dirs, LineKey, DirOf, KeyOf, Loaded, LineFor, KeysDiffer, UsableDir, ByKey, ByFile, ByRepo, OneDirPerKey;
    var first, table := Lines(pairings, existing, src, d1), Table(pairings, existing, src, d1);
    LinesAreLoaded(pairings, existing, src, d1);
    TableHasOneDirPerKey(pairings, existing, src, d1);
    LineSays(pairings, existing, src, d1, i);
    EveryDirIsUsable(pairings, existing, src, i);
    assert first[i] in table;
    TablePairingKeepsItsDir(pairings, table, src, i, first[i]);
    ByKeyHasEveryLine(table, first[i]);
    ByKeyFromALine(table, KeyOf(pairings[i]));
    var found := ByKey(table)[KeyOf(pairings[i])];
    var j :| 0 <= j < |first| && first[j] == found;
    LineSays(pairings, existing, src, d1, j);
    if i != j {
      DifferentKeys(pairings, i, j);
    }
  }

  /**
   Regeneration is a fixed point: a run over the table the first run wrote gives that table
   again, whatever day it is, with the same directories, dates and order.
   */
  lemma RegenerationIsAFixedPoint(pairings: seq<Pairing>, existing: seq<Line>, src: Sources,
                                  d1: string, d2: string)
    requires AllLoaded(existing) && Repos(pairings) && KeysDiffer(pairings) && src.isDate(d1)
    ensures AllLoaded(Table(pairings, existing, src, d1))
    ensures Table(pairings, Table(pairings, existing, src, d1), src, d2) == Table(pairings, existing, src, d1)
  {
    hide Dirs, KeyOf, LineFor, ByKey, LineLe, KeysDiffer;
    LinesAreLoaded(pairings, existing, src, d1);
    var first, table := Lines(pairings, existing, src, d1), Table(pairings, existing, src, d1);
    var second := Lines(pairings, table, src, d2);
    forall i | 0 <= i < |pairings|
      ensures second[i] == first[i]
    {
      SecondRunFinds(pairings, existing, src, d1, i);
      LineStays(pairings[i], DirAt(Dirs(pairings, ContextFor(existing, src)), i),
                Lookup(ByKey(existing), KeyOf(pairings[i])), src, d1, d2);
    }
    assert second == first;
  }
}
