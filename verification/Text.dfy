/** The few string operations the readers share: Unicode trimming and ASCII case folding. */
module Text {
  /** The characters with the Unicode White_Space property, which `str::trim` removes. */
  predicate IsSpace(c: char) {
    var n := c as int;
    || 9 <= n <= 13 || n == 32 || n == 0x85 || n == 0xA0 || n == 0x1680
    || 0x2000 <= n <= 0x200A || n == 0x2028 || n == 0x2029 || n == 0x202F || n == 0x205F || n == 0x3000
  }

  function TrimStart(s: string): string {
    if s != "" && IsSpace(s[0]) then TrimStart(s[1..]) else s
  }

  function TrimEnd(s: string): string {
    if s != "" && IsSpace(s[|s| - 1]) then TrimEnd(s[..|s| - 1]) else s
  }

  function Trim(s: string): string {
    TrimEnd(TrimStart(s))
  }

  function LowerChar(c: char): char {
    if 'A' <= c <= 'Z' then c - 'A' + 'a' else c
  }

  function UpperChar(c: char): char {
    if 'a' <= c <= 'z' then c - 'a' + 'A' else c
  }

  function Lower(s: string): (r: string)
    ensures |r| == |s|
  {
    seq(|s|, i requires 0 <= i < |s| => LowerChar(s[i]))
  }

  function Upper(s: string): (r: string)
    ensures |r| == |s|
  {
    seq(|s|, i requires 0 <= i < |s| => UpperChar(s[i]))
  }

  // ----- What they do, written out --------------------------------------------

  /** The code points with that property, one by one. */
  const WHITE_SPACE: seq<int> := [
    9, 10, 11, 12, 13, 32, 133, 160, 5760,
    8192, 8193, 8194, 8195, 8196, 8197, 8198, 8199, 8200, 8201, 8202,
    8232, 8233, 8239, 8287, 12288]

  lemma SpacesAreListed(c: char)
    ensures IsSpace(c) <==> c as int in WHITE_SPACE
  {
    var n := c as int;
    if IsSpace(c) {
      var i :=
        if n <= 13 then n - 9 else if n == 32 then 5 else if n == 133 then 6 else if n == 160 then 7
        else if n == 5760 then 8 else if n <= 8202 then 9 + n - 8192 else if n <= 8233 then 20 + n - 8232
        else if n == 8239 then 22 else if n == 8287 then 23 else 24;
      assert WHITE_SPACE[i] == n;
    }
  }

  predicate Blank(s: string) {
    forall i :: 0 <= i < |s| ==> IsSpace(s[i])
  }

  /** Neither empty nor with a space at an end. */
  predicate Tight(s: string) {
    s != "" && !IsSpace(s[0]) && !IsSpace(s[|s| - 1])
  }

  lemma {:induction false} TrimStartOf(a: string, s: string)
    requires Blank(a) && (s == "" || !IsSpace(s[0]))
    ensures TrimStart(a + s) == s
  {
    if a == "" {
      assert a + s == s;
    } else {
      assert (a + s)[1..] == a[1..] + s;
      TrimStartOf(a[1..], s);
    }
  }

  lemma {:induction false} TrimEndOf(s: string, b: string)
    requires Blank(b) && (s == "" || !IsSpace(s[|s| - 1]))
    ensures TrimEnd(s + b) == s
  {
    if b == "" {
      assert s + b == s;
    } else {
      var front := b[..|b| - 1];
      assert (s + b)[..|s + b| - 1] == s + front;
      TrimEndOf(s, front);
    }
  }

  /** Trimming takes the spaces off both ends, and nothing else. */
  lemma TrimTakesTheMiddle(a: string, s: string, b: string)
    requires Blank(a) && Blank(b) && Tight(s)
    ensures Trim(a + s + b) == s
  {
    assert a + s + b == a + (s + b);
    TrimStartOf(a, s + b);
    TrimEndOf(s, b);
  }

  lemma {:induction false} TrimOfBlank(a: string)
    requires Blank(a)
    ensures Trim(a) == ""
  {
    assert a + "" == a;
    TrimStartOf(a, "");
  }

  lemma TrimOfTight(s: string)
    requires Tight(s)
    ensures Trim(s) == s
  {
  }

  const UPPER_CASE := "ABCDEFGHIJKLMNOPQRSTUVWXYZ"
  const LOWER_CASE := "abcdefghijklmnopqrstuvwxyz"

  /** Folding case pairs the letters of the two alphabets, and leaves every other character alone. */
  lemma CaseIsFolded(s: string, i: nat)
    requires i < |s|
    ensures forall k :: 0 <= k < 26 && s[i] == UPPER_CASE[k] ==> Lower(s)[i] == LOWER_CASE[k] && Upper(s)[i] == s[i]
    ensures forall k :: 0 <= k < 26 && s[i] == LOWER_CASE[k] ==> Upper(s)[i] == UPPER_CASE[k] && Lower(s)[i] == s[i]
    ensures s[i] !in UPPER_CASE && s[i] !in LOWER_CASE ==> Lower(s)[i] == s[i] == Upper(s)[i]
  {
    hide UPPER_CASE, LOWER_CASE;
    UpperCaseLetters();
    LowerCaseLetters();
  }

  lemma UpperCaseLetters()
    ensures |UPPER_CASE| == 26 && forall k :: 0 <= k < 26 ==> UPPER_CASE[k] as int == 65 + k
    ensures forall c: char :: 'A' <= c <= 'Z' ==> c in UPPER_CASE
  {
    forall c: char | 'A' <= c <= 'Z' ensures c in UPPER_CASE {
      assert UPPER_CASE[c as int - 65] == c;
    }
  }

  lemma LowerCaseLetters()
    ensures |LOWER_CASE| == 26 && forall k :: 0 <= k < 26 ==> LOWER_CASE[k] as int == 97 + k
    ensures forall c: char :: 'a' <= c <= 'z' ==> c in LOWER_CASE
  {
    forall c: char | 'a' <= c <= 'z' ensures c in LOWER_CASE {
      assert LOWER_CASE[c as int - 97] == c;
    }
  }

  lemma LowerOfLower(s: string)
    requires forall i :: 0 <= i < |s| ==> !('A' <= s[i] <= 'Z')
    ensures Lower(s) == s
  {
  }
}
