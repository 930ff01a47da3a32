/**
 Which directory a pairing asks for (`assign_dirs` and `bare_dir` in
 scripts/models/vision_pairings.py), read off the table and the repository's name: the first
 usable directory of its line, else of its repository, else the repository's own name.
 */
module PairingNames {
  import opened Text
  import opened PairingTable
  import opened PairingLines

  // ----- What the table says first --------------------------------------------

  /** The line gives `dir`: a name, without a slash in it or a dot in front. */
  predicate Gives(l: Line, dir: string)
    requires Loaded(l)
  {
    && "dir" in l["encoder"].fields && l["encoder"].fields["dir"] == Str(dir)
    && dir != "" && dir[0] != '.' && forall i :: 0 <= i < |dir| ==> dir[i] != '/'
  }

  ghost predicate GivesNone(l: Line)
    requires Loaded(l)
  {
    forall dir :: !Gives(l, dir)
  }

  lemma UsableIsGiven(l: Line)
    requires Loaded(l)
    ensures UsableDir(DirOf(l)) ==> Gives(l, DirOf(l).s)
    ensures !UsableDir(DirOf(l)) ==> GivesNone(l)
  {
  }

  predicate IsOfRepo(l: Line, repo: string)
    requires Loaded(l)
  {
    Lower(l["model_repo"].s) == Lower(repo)
  }

  /** `dir` is what the first line of the pairing that gives one gives. */
  ghost predicate FirstOfPairing(lines: seq<Line>, p: Pairing, dir: string)
    requires AllLoaded(lines)
  {
    exists i :: 0 <= i < |lines| && IsLineOf(lines[i], p) && Gives(lines[i], dir)
      && forall j :: 0 <= j < i && IsLineOf(lines[j], p) ==> GivesNone(lines[j])
  }

  ghost predicate FirstOfRepo(lines: seq<Line>, p: Pairing, dir: string)
    requires AllLoaded(lines)
  {
    exists i :: 0 <= i < |lines| && IsOfRepo(lines[i], p.repo) && Gives(lines[i], dir)
      && forall j :: 0 <= j < i && IsOfRepo(lines[j], p.repo) ==> GivesNone(lines[j])
  }

  lemma {:induction false} ByFileIsFirst(lines: seq<Line>, p: Pairing) returns (i: int)
    requires AllLoaded(lines)
    ensures KeyOf(p) in ByFile(lines) <==> i >= 0
    ensures i < |lines|
    ensures i >= 0 ==> IsLineOf(lines[i], p) && Gives(lines[i], ByFile(lines)[KeyOf(p)])
    ensures forall j :: 0 <= j < (if i >= 0 then i else |lines|) && IsLineOf(lines[j], p) ==> GivesNone(lines[j])
  {
    hide KeyOf, LineKey, IsLineOf, Gives, GivesNone, UsableDir, DirOf;
    i := -1;
    if lines != [] {
      var n := |lines| - 1;
      KeyIsLineOf(lines[n], p);
      UsableIsGiven(lines[n]);
      i := ByFileIsFirst(lines[..n], p);
      if i < 0 && IsLineOf(lines[n], p) && UsableDir(DirOf(lines[n])) {
        i := n;
      }
    }
  }

  lemma {:induction false} ByRepoIsFirst(lines: seq<Line>, p: Pairing) returns (i: int)
    requires AllLoaded(lines)
    ensures Lower(p.repo) in ByRepo(lines) <==> i >= 0
    ensures i < |lines|
    ensures i >= 0 ==> IsOfRepo(lines[i], p.repo) && Gives(lines[i], ByRepo(lines)[Lower(p.repo)])
    ensures forall j ::
      0 <= j < (if i >= 0 then i else |lines|) && IsOfRepo(lines[j], p.repo) ==> GivesNone(lines[j])
  {
    hide Gives, GivesNone, UsableDir, DirOf, Lower;
    i := -1;
    if lines != [] {
      var n := |lines| - 1;
      UsableIsGiven(lines[n]);
      i := ByRepoIsFirst(lines[..n], p);
      if i < 0 && IsOfRepo(lines[n], p.repo) && UsableDir(DirOf(lines[n])) {
        i := n;
      }
    }
  }

  // ----- The repository's own name --------------------------------------------

  /** The repository is `author`/`name`, with `-GGUF` in any letter case behind the name or not. */
  predicate IsNamed(repo: string, author: string, name: string, tail: string) {
    && repo == author + "/" + name + tail && '/' !in author
    && (if tail == "" then !EndsInGguf(name) else Upper(tail) == "-GGUF")
  }

  predicate EndsInGguf(name: string) {
    |name| >= 5 && Upper(name[|name| - 5..]) == "-GGUF"
  }

  lemma {:induction false} SlashIsFirst(author: string, rest: string)
    requires '/' !in author
    ensures Slash(author + "/" + rest) == |author|
  {
    if author != "" {
      assert (author + "/" + rest)[1..] == author[1..] + "/" + rest;
      SlashIsFirst(author[1..], rest);
    }
  }

  lemma CasesMeet(s: string)
    ensures Lower(Upper(s)) == Lower(s) && Upper(Lower(s)) == Upper(s)
  {
  }

  lemma GgufInLowerCase(s: string)
    ensures Lower(s) == "-gguf" <==> Upper(s) == "-GGUF"
  {
    assert Lower("-GGUF") == "-gguf" && Upper("-gguf") == "-GGUF";
    CasesMeet(s);
  }

  lemma LowerInTwo(a: string, b: string)
    ensures Lower(a + b) == Lower(a) + Lower(b)
  {
  }

  lemma LowerOfTail(s: string, k: nat)
    requires k <= |s|
    ensures Lower(s)[k..] == Lower(s[k..]) && Lower(s)[..k] == Lower(s[..k])
  {
  }

  /** The bare name and the stem, however the repository is spelled. */
  lemma NamesOfRepo(p: Pairing, author: string, name: string, tail: string)
    requires IsNamed(p.repo, author, name, tail)
    ensures BareDir(p.repo) == Lower(name)
    ensures Stem(p) == Lower(author) + "-" + Lower(name)
  {
    hide Upper, Lower;
    var rest := name + tail;
    assert p.repo == author + "/" + rest;
    SlashIsFirst(author, rest);
    assert NameOf(p.repo) == rest && AuthorOf(p.repo) == author;
    SlashOfLower(p.repo);
    LowerOfTail(p.repo, |author|);
    assert p.repo[..|author|] == author;
    if tail == "" {
      assert rest == name;
      if |name| >= 5 {
        LowerOfTail(name, |name| - 5);
        GgufInLowerCase(name[|name| - 5..]);
      }
    } else {
      LowerInTwo(name, tail);
      GgufInLowerCase(tail);
      assert Lower(rest)[|rest| - 5..] == Lower(tail);
    }
  }

  // ----- What a pairing asks for ----------------------------------------------

  /** The name a pairing asks for first, written out. */
  ghost predicate AsksFor(existing: seq<Line>, p: Pairing, name: string, asked: string)
    requires AllLoaded(existing)
  {
    || FirstOfPairing(existing, p, asked)
    || ((forall dir :: !FirstOfPairing(existing, p, dir))
        && (|| FirstOfRepo(existing, p, asked)
            || ((forall dir :: !FirstOfRepo(existing, p, dir)) && asked == Lower(name))))
  }

  lemma NothingFirst(existing: seq<Line>, p: Pairing)
    requires AllLoaded(existing)
    ensures (forall j :: 0 <= j < |existing| && IsLineOf(existing[j], p) ==> GivesNone(existing[j])) ==>
      forall dir :: !FirstOfPairing(existing, p, dir)
    ensures (forall j :: 0 <= j < |existing| && IsOfRepo(existing[j], p.repo) ==> GivesNone(existing[j])) ==>
      forall dir :: !FirstOfRepo(existing, p, dir)
  {
    hide Gives, IsLineOf, IsOfRepo;
  }

  /**
   A pairing asks for the first usable directory of its lines, else for that of its repository's
   lines, else for the repository's name in lower case without its `-GGUF`.
   */
  lemma WhatIsAskedFor(existing: seq<Line>, src: Sources, p: Pairing, author: string, name: string, tail: string)
    requires AllLoaded(existing) && IsNamed(p.repo, author, name, tail)
    ensures AsksFor(existing, p, name, Preferred(p, ContextFor(existing, src)))
    ensures Stem(p) == Lower(author) + "-" + Lower(name)
  {
    hide Gives, GivesNone, IsLineOf, IsOfRepo, ByFile, ByRepo, BareDir, Stem, KeyOf, Lower, Ranks, IsNamed;
    NamesOfRepo(p, author, name, tail);
    NothingFirst(existing, p);
    var i := ByFileIsFirst(existing, p);
    var k := ByRepoIsFirst(existing, p);
    assert i >= 0 ==> FirstOfPairing(existing, p, ByFile(existing)[KeyOf(p)]);
    assert k >= 0 ==> FirstOfRepo(existing, p, ByRepo(existing)[Lower(p.repo)]);
  }

  // ----- The order of the lists -----------------------------------------------

  /** A listed name ranks by where it was listed last, whatever its letter case. */
  lemma {:induction false} RankIsLastPlace(names: seq<string>, s: string)
    ensures s in Ranks(names) <==> exists i :: 0 <= i < |names| && Lower(names[i]) == s
    ensures s in Ranks(names) ==>
      && Ranks(names)[s] < |names| && Lower(names[Ranks(names)[s]]) == s
      && forall i :: Ranks(names)[s] < i < |names| ==> Lower(names[i]) != s
  {
    hide Lower;
    if names != [] {
      var n := |names| - 1;
      RankIsLastPlace(names[..n], s);
      if Lower(names[n]) != s && s in Ranks(names[..n]) {
        assert names[..n][Ranks(names[..n])[s]] == names[Ranks(names[..n])[s]];
      }
    }
  }

  // ----- The numbers behind a name --------------------------------------------

  lemma {:induction false} NumeralIsPlain(n: nat)
    ensures forall i :: 0 <= i < |Decimal(n)| ==> '0' <= Decimal(n)[i] <= '9'
    ensures Decimal(n) != "" && (Decimal(n)[0] == '0' <==> n == 0) && Value(Decimal(n)) == n
  {
    ValueOfDecimal(n);
    if n >= 10 {
      NumeralIsPlain(n / 10);
    }
  }

  /** A numbered name is the stem, a dash and the number's decimal digits, without a leading zero. */
  lemma NumberedIsPrinted(stem: string, n: nat) returns (digits: string)
    ensures Numbered(stem, n) == stem + "-" + digits && digits != ""
    ensures forall i :: 0 <= i < |digits| ==> '0' <= digits[i] <= '9'
    ensures (digits[0] == '0' <==> n == 0) && Value(digits) == n
  {
    NumeralIsPlain(n);
    digits := Decimal(n);
  }
}
