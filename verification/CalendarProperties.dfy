/**
 What the iCalendar reader promises (crates/pond-adapters-caldav/src/ics.rs): each event is
 read from its own lines alone, documents can be read piece by piece, and a content line
 printed as RFC 5545 prescribes comes back, however it was folded.
 */
module CalendarProperties {
  import opened Results
  import opened Text
  import opened Calendar

  // ----- An event is its own lines --------------------------------------------

  /** The value of the last line of a name. */
  function LastValue(ps: seq<Line>, name: string): Option<string> {
    if ps == [] then None
    else if Upper(ps[|ps| - 1].name) == name then Some(ps[|ps| - 1].value)
    else LastValue(ps[..|ps| - 1], name)
  }

  function Trimmed(value: Option<string>): Option<string> {
    if value.Some? then Some(Trim(value.value)) else None
  }

  function DateOf(value: Option<string>, dates: Dates): Option<int> {
    if value.Some? then dates.parse(value.value) else None
  }

  predicate NamesSomeone(line: Line) {
    Upper(line.name) == "ATTENDEE" || Upper(line.name) == "ORGANIZER"
  }

  /** The people named, each once, in the order they are first named. */
  function People(ps: seq<Line>): seq<string> {
    if ps == [] then []
    else
      var before, last := People(ps[..|ps| - 1]), ps[|ps| - 1];
      if NamesSomeone(last) && Participant(last).Some? && Participant(last).value !in before
      then before + [Participant(last).value] else before
  }

  /** What an event's lines make of it: no item without a UID and a readable start. */
  function ItemsOf(ps: seq<Line>, dates: Dates): seq<Item> {
    var uid := Trimmed(LastValue(ps, "UID"));
    var start := DateOf(LastValue(ps, "DTSTART"), dates);
    if uid.None? || start.None? then []
    else
      [Item(ExternalId(uid.value, Trimmed(LastValue(ps, "RECURRENCE-ID"))), start.value,
            Title(LastValue(ps, "SUMMARY").GetOr("")),
            Body(dates, start.value, DateOf(LastValue(ps, "DTEND"), dates),
                 LastValue(ps, "LOCATION").GetOr(""), LastValue(ps, "DESCRIPTION").GetOr("")),
            People(ps))]
  }

  /** The lines since the last BEGIN:VEVENT, read at each END:VEVENT, and nothing else. */
  function Walk(lines: seq<string>, open: Option<seq<Line>>, dates: Dates): seq<Item>
    decreases |lines|
  {
    if lines == [] then []
    else if IsBegin(lines[0]) then Walk(lines[1..], Some([]), dates)
    else if IsEnd(lines[0]) then
      (if open.Some? then ItemsOf(open.value, dates) else []) + Walk(lines[1..], None, dates)
    else if open.Some? && Parsed(Trim(lines[0])).Some? then
      Walk(lines[1..], Some(open.value + [Parsed(Trim(lines[0])).value]), dates)
    else Walk(lines[1..], open, dates)
  }

  /** The machine's fields after an event's lines `ps`. */
  function FieldsOf(ps: seq<Line>, dates: Dates, items: seq<Item>): State {
    State(true, Trimmed(LastValue(ps, "UID")), Trimmed(LastValue(ps, "RECURRENCE-ID")),
          LastValue(ps, "SUMMARY").GetOr(""), LastValue(ps, "DESCRIPTION").GetOr(""),
          LastValue(ps, "LOCATION").GetOr(""), DateOf(LastValue(ps, "DTSTART"), dates),
          DateOf(LastValue(ps, "DTEND"), dates), People(ps), items)
  }

  lemma LastValueOfLonger(ps: seq<Line>, p: Line, name: string)
    ensures LastValue(ps + [p], name) == if Upper(p.name) == name then Some(p.value) else LastValue(ps, name)
  {
    assert (ps + [p])[..|ps|] == ps;
  }

  lemma OneMoreField(ps: seq<Line>, p: Line, dates: Dates, items: seq<Item>)
    ensures SetField(FieldsOf(ps, dates, items), p, dates) == FieldsOf(ps + [p], dates, items)
  {
    hide Participant, Trim, LastValue, Upper;
    assert (ps + [p])[..|ps|] == ps;
    LastValueOfLonger(ps, p, "UID");
    LastValueOfLonger(ps, p, "RECURRENCE-ID");
    LastValueOfLonger(ps, p, "SUMMARY");
    LastValueOfLonger(ps, p, "DESCRIPTION");
    LastValueOfLonger(ps, p, "LOCATION");
    LastValueOfLonger(ps, p, "DTSTART");
    LastValueOfLonger(ps, p, "DTEND");
    DistinctNames();
  }

  lemma DistinctNames()
    ensures "UID" != "RECURRENCE-ID" && "UID" != "SUMMARY" && "UID" != "DESCRIPTION" && "UID" != "LOCATION"
    ensures "UID" != "DTSTART" && "UID" != "DTEND" && "UID" != "ATTENDEE" && "UID" != "ORGANIZER"
    ensures "SUMMARY"[0] == 'S' && "DTSTART"[0] == 'D' && "ATTENDEE"[0] == 'A' && "ORGANIZER"[0] == 'O'
    ensures "LOCATION"[0] == 'L' && "RECURRENCE-ID"[0] == 'R'
  {
  }

  /** `st` holds the fields of the open event, or no event is open and no UID is held. */
  ghost predicate Holds(st: State, open: Option<seq<Line>>, dates: Dates) {
    match open
    case None => !st.inEvent && st.uid.None?
    case Some(ps) => st == FieldsOf(ps, dates, st.items)
  }

  lemma {:induction false} RunIsWalk(st: State, open: Option<seq<Line>>, lines: seq<string>, dates: Dates)
    requires Holds(st, open, dates)
    ensures Run(st, lines, dates).items == st.items + Walk(lines, open, dates)
    decreases |lines|
  {
    hide SetField, FieldsOf, ItemsOf, Parsed, IsBegin, IsEnd, Trim;
    if lines == [] {
      assert st.items + [] == st.items;
    } else {
      var line, rest := lines[0], lines[1..];
      var next := Step(st, line, dates);
      var open' := OpenAfter(open, line);
      StepHolds(st, open, line, dates);
      RunIsWalk(next, open', rest, dates);
      var made := MadeBy(open, line, dates);
      assert st.items + made + Walk(rest, open', dates) == st.items + (made + Walk(rest, open', dates));
      assert [] + Walk(rest, open', dates) == Walk(rest, open', dates);
    }
  }

  /** What is open after a line, and the items the line completes. */
  function OpenAfter(open: Option<seq<Line>>, line: string): Option<seq<Line>> {
    if IsBegin(line) then Some([])
    else if IsEnd(line) then None
    else if open.Some? && Parsed(Trim(line)).Some? then Some(open.value + [Parsed(Trim(line)).value])
    else open
  }

  function MadeBy(open: Option<seq<Line>>, line: string, dates: Dates): seq<Item> {
    if !IsBegin(line) && IsEnd(line) && open.Some? then ItemsOf(open.value, dates) else []
  }

  lemma StepHolds(st: State, open: Option<seq<Line>>, line: string, dates: Dates)
    requires Holds(st, open, dates)
    ensures Holds(Step(st, line, dates), OpenAfter(open, line), dates)
    ensures Step(st, line, dates).items == st.items + MadeBy(open, line, dates)
  {
    hide Trim, Lower, Upper, Parsed, Participant, Body, Title, ExternalId;
    assert st.items + [] == st.items;
    if open.Some? && !IsBegin(line) && !IsEnd(line) && Parsed(Trim(line)).Some? {
      OneMoreField(open.value, Parsed(Trim(line)).value, dates, st.items);
      SetFieldKeepsItems(st, Parsed(Trim(line)).value, dates);
    }
  }

  lemma SetFieldKeepsItems(st: State, p: Line, dates: Dates)
    ensures SetField(st, p, dates).items == st.items
  {
  }

  /** The reader's items are those of the walk: no field leaks from one event into another. */
  lemma EventsAreTheWalk(body: string, dates: Dates)
    ensures Events(body, dates) == Walk(Unfolded(body), None, dates)
  {
    RunIsWalk(Initial, None, Unfolded(body), dates);
    assert [] + Walk(Unfolded(body), None, dates) == Walk(Unfolded(body), None, dates);
  }

  /** In every state the machine reaches, no UID is held while no event is open. */
  lemma {:induction false} NoUidOutsideAnEvent(st: State, lines: seq<string>, dates: Dates)
    requires !st.inEvent ==> st.uid.None?
    ensures !Run(st, lines, dates).inEvent ==> Run(st, lines, dates).uid.None?
    decreases |lines|
  {
    hide Parsed, IsBegin, IsEnd, Participant;
    if lines != [] {
      NoUidOutsideAnEvent(Step(st, lines[0], dates), lines[1..], dates);
    }
  }

  // ----- Reading piece by piece -----------------------------------------------

  lemma {:induction false} SplitAtNewline(x: string, y: string)
    ensures SplitOn(x + "\n" + y, '\n') == SplitOn(x, '\n') + SplitOn(y, '\n')
  {
    hide SplitOn;
    var whole := x + "\n" + y;
    SplitStep(whole, '\n');
    if x == "" {
      assert whole[1..] == y;
      NothingSplit('\n');
    } else {
      assert whole[1..] == x[1..] + "\n" + y;
      SplitAtNewline(x[1..], y);
      SplitStep(x, '\n');
      var a, b := SplitOn(x[1..], '\n'), SplitOn(y, '\n');
      assert (a + b)[0] == a[0] && (a + b)[1..] == a[1..] + b;
      if x[0] == '\n' {
        assert [""] + (a + b) == ([""] + a) + b;
      } else {
        assert [[x[0]] + a[0]] + (a[1..] + b) == ([[x[0]] + a[0]] + a[1..]) + b;
      }
    }
  }

  lemma NothingSplit(sep: char)
    ensures SplitOn("", sep) == [""]
  {
  }

  lemma SplitStep(s: string, sep: char)
    requires s != ""
    ensures s[0] == sep ==> SplitOn(s, sep) == [""] + SplitOn(s[1..], sep)
    ensures s[0] != sep ==> SplitOn(s, sep) == [[s[0]] + SplitOn(s[1..], sep)[0]] + SplitOn(s[1..], sep)[1..]
  {
  }

  lemma {:induction false} UnfoldInTwo(lines: seq<string>, a: seq<string>, b: seq<string>)
    ensures UnfoldOnto(lines, a + b) == UnfoldOnto(UnfoldOnto(lines, a), b)
    decreases |a|
  {
    if a == [] {
      assert a + b == b;
    } else {
      assert (a + b)[1..] == a[1..] + b;
      UnfoldInTwo(Absorb(lines, StripCr(a[0])), a[1..], b);
    }
  }

  lemma {:induction false} UnfoldBehind(before: seq<string>, lines: seq<string>, raws: seq<string>)
    requires lines != [] || (raws != [] ==> !Continues(StripCr(raws[0])))
    ensures UnfoldOnto(before + lines, raws) == before + UnfoldOnto(lines, raws)
    decreases |raws|
  {
    if raws != [] {
      var line := StripCr(raws[0]);
      assert Absorb(before + lines, line) == before + Absorb(lines, line);
      UnfoldBehind(before, Absorb(lines, line), raws[1..]);
    }
  }

  lemma FirstPiece(s: string)
    requires !Continues(s)
    ensures !Continues(StripCr(SplitOn(s, '\n')[0]))
  {
  }

  lemma BlankLineChangesNothing(st: State, dates: Dates)
    ensures Step(st, "", dates) == st
  {
    assert Trim("") == "" && Lower("") == "";
  }

  lemma {:induction false} RunInTwo(st: State, a: seq<string>, b: seq<string>, dates: Dates)
    ensures Run(st, a + b, dates) == Run(Run(st, a, dates), b, dates)
    decreases |a|
  {
    hide Step;
    if a == [] {
      assert a + b == b;
    } else {
      assert (a + b)[1..] == a[1..] + b;
      RunInTwo(Step(st, a[0], dates), a[1..], b, dates);
    }
  }

  /** Two documents read as one read as each by itself, cut at a newline outside any event. */
  lemma ReadsPieceByPiece(a: string, b: string, dates: Dates)
    requires a != "" && a[|a| - 1] == '\n' && !Continues(b)
    requires !Run(Initial, Unfolded(a), dates).inEvent
    ensures Events(a + b, dates) == Events(a, dates) + Events(b, dates)
  {
    hide Step, Absorb, SplitOn, Walk;
    var x := a[..|a| - 1];
    assert a == x + "\n" + "" && a + b == x + "\n" + b;
    SplitAtNewline(x, b);
    SplitAtNewline(x, "");
    UnfoldInTwo([], SplitOn(x, '\n'), SplitOn(b, '\n'));
    UnfoldInTwo([], SplitOn(x, '\n'), SplitOn("", '\n'));
    FirstPiece(b);
    FirstPiece("");
    UnfoldBehind(Unfolded(x), [], SplitOn(b, '\n'));
    UnfoldBehind(Unfolded(x), [], SplitOn("", '\n'));
    assert Unfolded(x) + [] == Unfolded(x);
    assert Unfolded("") == [""] by {
      UnfoldedEmpty();
    }
    RunInTwo(Initial, Unfolded(x), [""], dates);
    RunInTwo(Initial, Unfolded(x), Unfolded(b), dates);
    var mid := Run(Initial, Unfolded(x), dates);
    RunOne(mid, "", dates);
    BlankLineChangesNothing(mid, dates);
    NoUidOutsideAnEvent(Initial, Unfolded(x), dates);
    RunIsWalk(mid, None, Unfolded(b), dates);
    EventsAreTheWalk(b, dates);
  }

  lemma UnfoldedEmpty()
    ensures Unfolded("") == [""]
  {
    assert SplitOn("", '\n') == [""];
    assert [""][1..] == [];
  }

  lemma RunOne(st: State, line: string, dates: Dates)
    ensures Run(st, [line], dates) == Step(st, line, dates)
  {
    assert [line][1..] == [];
  }

  // ----- Printing a content line ----------------------------------------------

  function EscapedChar(c: char): string {
    if c == '\\' then "\\\\"
    else if c == ',' then "\\,"
    else if c == ';' then "\\;"
    else if c == '\n' then "\\n"
    else [c]
  }

  /** TEXT escaping, section 3.3.11 of RFC 5545. */
  function Escaped(value: string): string {
    if value == "" then "" else EscapedChar(value[0]) + Escaped(value[1..])
  }

  lemma {:induction false} UnescapeUndoesEscape(value: string)
    ensures Unescaped(Escaped(value)) == value
  {
    if value != "" {
      var rest := Escaped(value[1..]);
      UnescapeUndoesEscape(value[1..]);
      UnescapeOne(value[0], rest);
      assert value == [value[0]] + value[1..];
    }
  }

  lemma UnescapeOne(c: char, rest: string)
    ensures Unescaped(EscapedChar(c) + rest) == [c] + Unescaped(rest)
  {
    var s := EscapedChar(c) + rest;
    if |EscapedChar(c)| == 2 {
      assert s[2..] == rest;
    } else {
      assert s[1..] == rest;
    }
  }

  /** `s` is one way to write `c`: as it is, behind a backslash, or as an escaped line feed. */
  predicate Spells(s: string, c: char) {
    || (s == [c] && c != '\\')
    || (s == ['\\', c] && c != 'n' && c != 'N')
    || ((s == "\\n" || s == "\\N") && c == '\n')
  }

  function Spelled(pieces: seq<string>): string {
    if pieces == [] then "" else pieces[0] + Spelled(pieces[1..])
  }

  /** However a text is spelled it is read back, and a backslash left over at its end stays one. */
  lemma {:induction false} AnySpellingIsRead(value: string, pieces: seq<string>)
    requires |pieces| == |value| && forall i :: 0 <= i < |value| ==> Spells(pieces[i], value[i])
    ensures Unescaped(Spelled(pieces)) == value && Unescaped(Spelled(pieces) + "\\") == value + "\\"
  {
    if value == "" {
      assert Spelled(pieces) + "\\" == "\\";
    } else {
      AnySpellingIsRead(value[1..], pieces[1..]);
      var rest := Spelled(pieces[1..]);
      SpellingIsRead(pieces[0], value[0], rest);
      SpellingIsRead(pieces[0], value[0], rest + "\\");
      assert Spelled(pieces) + "\\" == pieces[0] + (rest + "\\");
      assert value == [value[0]] + value[1..];
      assert value + "\\" == [value[0]] + (value[1..] + "\\");
    }
  }

  lemma SpellingIsRead(s: string, c: char, rest: string)
    requires Spells(s, c)
    ensures Unescaped(s + rest) == [c] + Unescaped(rest)
  {
    if |s| == 2 {
      assert (s + rest)[2..] == rest;
    } else {
      assert (s + rest)[1..] == rest;
    }
  }

  lemma {:induction false} EscapedHasNoNewline(value: string)
    ensures '\n' !in Escaped(value)
  {
    if value != "" {
      EscapedHasNoNewline(value[1..]);
    }
  }

  function Head(l: Line): string {
    l.name + if l.params == "" then "" else ";" + l.params
  }

  function ContentLine(l: Line): string {
    Head(l) + ":" + Escaped(l.value)
  }

  /** Whether a scan of `s` ends inside quotes. */
  predicate QuotedAfter(s: string, inQuotes: bool) {
    if s == "" then inQuotes else QuotedAfter(s[1..], if s[0] == '"' then !inQuotes else inQuotes)
  }

  /** Every colon in the parameters is inside quotes, and the quotes are closed. */
  predicate ColonsQuoted(params: string) {
    ColonFrom(params, false) == |params| && !QuotedAfter(params, false)
  }

  predicate PlainName(name: string) {
    ':' !in name && ';' !in name && '"' !in name && Trim(name) == name
  }

  lemma {:induction false} ColonPast(s: string, t: string, inQuotes: bool)
    ensures ColonFrom(s + t, inQuotes) ==
      if ColonFrom(s, inQuotes) < |s| then ColonFrom(s, inQuotes)
      else |s| + ColonFrom(t, QuotedAfter(s, inQuotes))
  {
    if s == "" {
      assert s + t == t;
    } else {
      assert (s + t)[1..] == s[1..] + t;
      if s[0] != ':' || inQuotes {
        ColonPast(s[1..], t, if s[0] == '"' then !inQuotes else inQuotes);
      }
    }
  }

  lemma {:induction false} NoColonNoQuote(s: string)
    requires ':' !in s && '"' !in s
    ensures ColonFrom(s, false) == |s| && !QuotedAfter(s, false)
  {
    if s != "" {
      NoColonNoQuote(s[1..]);
    }
  }

  lemma {:induction false} SemicolonAt(s: string, t: string)
    requires ';' !in s
    ensures IndexOf(s, ';') == |s| && IndexOf(s + ";" + t, ';') == |s|
  {
    if s != "" {
      assert (s + ";" + t)[1..] == s[1..] + ";" + t;
      SemicolonAt(s[1..], t);
    }
  }

  /** The scan stops at the printed colon exactly when the parameters' colons are quoted. */
  lemma ColonOfContentLine(l: Line)
    requires PlainName(l.name)
    ensures ColonsQuoted(l.params) ==> ColonFrom(ContentLine(l), false) == |Head(l)|
    ensures !ColonsQuoted(l.params) ==> |l.name| < ColonFrom(ContentLine(l), false) != |Head(l)|
  {
    hide Escaped, ColonFrom, QuotedAfter, Trim;
    var tail := ":" + Escaped(l.value);
    NoColonNoQuote(l.name);
    ColonPast(l.name, (if l.params == "" then "" else ";" + l.params) + tail, false);
    assert ContentLine(l) == l.name + ((if l.params == "" then "" else ";" + l.params) + tail);
    ColonFirst(Escaped(l.value));
    if l.params == "" {
      assert "" + tail == tail;
      NoColonNoQuote("");
    } else {
      assert ";" + l.params + tail == ";" + (l.params + tail);
      SemicolonFirst(l.params + tail);
      ColonPast(l.params, tail, false);
    }
  }

  lemma ColonFirst(rest: string)
    ensures ColonFrom(":" + rest, false) == 0 && ColonFrom(":" + rest, true) > 0
  {
  }

  lemma SemicolonFirst(rest: string)
    ensures ColonFrom(";" + rest, false) == 1 + ColonFrom(rest, false)
  {
    assert (";" + rest)[1..] == rest;
  }

  /**
   A printed content line comes back as the same name, parameters and value exactly when
   every colon in its parameters is inside balanced quotes.
   */
  lemma ContentLineRoundTrip(l: Line)
    requires PlainName(l.name)
    ensures Parsed(ContentLine(l)) == Some(l) <==> ColonsQuoted(l.params)
  {
    hide ColonFrom, Escaped, Unescaped, QuotedAfter, Trim, ColonsQuoted;
    ColonOfContentLine(l);
    var line, k := ContentLine(l), ColonFrom(ContentLine(l), false);
    SplitOfHead(l);
    if ColonsQuoted(l.params) {
      assert line[..k] == Head(l) && line[k + 1..] == Escaped(l.value);
      UnescapeUndoesEscape(l.value);
    } else if k < |line| {
      NoParamsNoColon();
      OtherHead(line[..k], l);
    }
  }

  lemma NoParamsNoColon()
    ensures ColonsQuoted("")
  {
  }

  lemma SplitOfHead(l: Line)
    requires PlainName(l.name)
    ensures SplitHead(Head(l)) == (l.name, l.params)
  {
    hide Trim, IndexOf;
    SemicolonAt(l.name, l.params);
    if l.params == "" {
      assert Head(l) == l.name;
    } else {
      var head := l.name + ";" + l.params;
      assert head == Head(l) && head[..|l.name|] == l.name && head[|l.name| + 1..] == l.params;
    }
  }

  /** A head that stops elsewhere than the printed one has other parameters. */
  lemma OtherHead(head: string, l: Line)
    requires PlainName(l.name) && l.params != ""
    requires |l.name| < |head| != |Head(l)| && head <= ContentLine(l)
    ensures SplitHead(head).1 != l.params
  {
    hide Trim, IndexOf, Escaped;
    var line := ContentLine(l);
    assert line[..|l.name|] == l.name && line[|l.name|] == ';';
    var after := head[|l.name| + 1..];
    assert head == l.name + ";" + after;
    SemicolonAt(l.name, after);
    assert |after| != |l.params|;
  }

  // ----- Folding it -----------------------------------------------------------

  /**
   A line cut anywhere: the first piece, then each later one behind its space or tab; every
   piece ends in a carriage return and a line feed or, without `cr`, in a line feed alone.
   */
  datatype Folded = Folded(first: string, rest: seq<(char, string)>, cr: bool)

  /** A piece that shows where it ends: without a carriage return behind it, it has none of its own there. */
  predicate Ends(piece: string, cr: bool) {
    cr || piece == "" || piece[|piece| - 1] != '\r'
  }

  predicate ValidRest(rest: seq<(char, string)>, cr: bool) {
    forall i :: 0 <= i < |rest| ==> (rest[i].0 == ' ' || rest[i].0 == '\t') && Ends(rest[i].1, cr)
  }

  predicate ValidFold(f: Folded) {
    && (f.first == "" || (f.first[0] != ' ' && f.first[0] != '\t'))
    && Ends(f.first, f.cr) && ValidRest(f.rest, f.cr)
  }

  function Ended(piece: string, cr: bool): string {
    piece + if cr then "\r" else ""
  }

  function Joined(rest: seq<(char, string)>): string {
    if rest == [] then "" else rest[0].1 + Joined(rest[1..])
  }

  function TextOf(f: Folded): string {
    f.first + Joined(f.rest)
  }

  /** The physical lines, section 3.1 of RFC 5545, without their line feeds. */
  function RawRest(rest: seq<(char, string)>, cr: bool): seq<string> {
    if rest == [] then [] else [Ended([rest[0].0] + rest[0].1, cr)] + RawRest(rest[1..], cr)
  }

  function Raws(f: Folded): seq<string> {
    [Ended(f.first, f.cr)] + RawRest(f.rest, f.cr)
  }

  function WithFeeds(raws: seq<string>): string {
    if raws == [] then "" else raws[0] + "\n" + WithFeeds(raws[1..])
  }

  function Print(fs: seq<Folded>): string {
    if fs == [] then "" else WithFeeds(Raws(fs[0])) + Print(fs[1..])
  }

  function Texts(fs: seq<Folded>): seq<string> {
    if fs == [] then [] else [TextOf(fs[0])] + Texts(fs[1..])
  }

  lemma {:induction false} SplitAtNone(s: string, sep: char)
    requires sep !in s
    ensures SplitOn(s, sep) == [s]
  {
    if s != "" {
      SplitAtNone(s[1..], sep);
      assert [s[0]] + s[1..] == s;
    }
  }

  lemma {:induction false} SplitFeeds(raws: seq<string>, more: string)
    requires forall i :: 0 <= i < |raws| ==> '\n' !in raws[i]
    ensures SplitOn(WithFeeds(raws) + more, '\n') == raws + SplitOn(more, '\n')
  {
    hide SplitOn;
    if raws == [] {
      assert "" + more == more && raws + SplitOn(more, '\n') == SplitOn(more, '\n');
    } else {
      var rest := WithFeeds(raws[1..]) + more;
      assert WithFeeds(raws) + more == raws[0] + "\n" + rest;
      SplitAtNewline(raws[0], rest);
      SplitAtNone(raws[0], '\n');
      SplitFeeds(raws[1..], more);
      assert [raws[0]] + (raws[1..] + SplitOn(more, '\n')) == raws + SplitOn(more, '\n');
    }
  }

  lemma {:induction false} JoinedHasNoFeed(rest: seq<(char, string)>, cr: bool)
    requires ValidRest(rest, cr) && '\n' !in Joined(rest)
    ensures forall i :: 0 <= i < |RawRest(rest, cr)| ==> '\n' !in RawRest(rest, cr)[i]
  {
    if rest != [] {
      JoinedHasNoFeed(rest[1..], cr);
    }
  }

  lemma StripEnded(piece: string, cr: bool)
    requires Ends(piece, cr)
    ensures StripCr(Ended(piece, cr)) == piece
  {
    assert piece + "" == piece;
  }

  lemma {:induction false} UnfoldRest(lines: seq<string>, rest: seq<(char, string)>, cr: bool)
    requires lines != [] && ValidRest(rest, cr)
    ensures UnfoldOnto(lines, RawRest(rest, cr))
         == lines[..|lines| - 1] + [lines[|lines| - 1] + Joined(rest)]
    decreases |rest|
  {
    if rest == [] {
      assert lines[|lines| - 1] + "" == lines[|lines| - 1];
    } else {
      var piece := [rest[0].0] + rest[0].1;
      StripEnded(piece, cr);
      assert piece[1..] == rest[0].1;
      UnfoldRest(Absorb(lines, piece), rest[1..], cr);
      assert lines[|lines| - 1] + rest[0].1 + Joined(rest[1..]) == lines[|lines| - 1] + Joined(rest);
    }
  }

  lemma UnfoldOne(lines: seq<string>, f: Folded)
    requires ValidFold(f)
    ensures UnfoldOnto(lines, Raws(f)) == lines + [TextOf(f)]
  {
    StripEnded(f.first, f.cr);
    assert Raws(f)[1..] == RawRest(f.rest, f.cr);
    UnfoldRest(lines + [f.first], f.rest, f.cr);
  }

  lemma {:induction false} UnfoldPrinted(lines: seq<string>, fs: seq<Folded>)
    requires forall f :: f in fs ==> ValidFold(f) && '\n' !in TextOf(f)
    ensures UnfoldOnto(lines, SplitOn(Print(fs), '\n')) == lines + Texts(fs) + [""]
    decreases |fs|
  {
    hide Raws, TextOf, ValidFold, SplitOn, UnfoldOnto, WithFeeds, Print, Texts;
    if fs == [] {
      UnfoldFeed(lines);
      PrintNone();
      assert lines + [] == lines;
    } else {
      assert fs[0] in fs;
      PrintNext(fs);
      UnfoldNext(lines, fs[0], Print(fs[1..]));
      UnfoldPrinted(lines + [TextOf(fs[0])], fs[1..]);
      assert lines + [TextOf(fs[0])] + Texts(fs[1..]) == lines + ([TextOf(fs[0])] + Texts(fs[1..]));
    }
  }

  lemma PrintNone()
    ensures Print([]) == "" && Texts([]) == []
  {
  }

  lemma PrintNext(fs: seq<Folded>)
    requires fs != []
    ensures Print(fs) == WithFeeds(Raws(fs[0])) + Print(fs[1..])
    ensures Texts(fs) == [TextOf(fs[0])] + Texts(fs[1..])
  {
  }

  lemma UnfoldNext(lines: seq<string>, f: Folded, more: string)
    requires ValidFold(f) && '\n' !in TextOf(f)
    ensures UnfoldOnto(lines, SplitOn(WithFeeds(Raws(f)) + more, '\n'))
         == UnfoldOnto(lines + [TextOf(f)], SplitOn(more, '\n'))
  {
    hide Raws, TextOf, ValidFold, SplitOn, UnfoldOnto, WithFeeds;
    RawsHaveNoFeed(f);
    SplitFeeds(Raws(f), more);
    UnfoldInTwo(lines, Raws(f), SplitOn(more, '\n'));
    UnfoldOne(lines, f);
  }

  lemma UnfoldFeed(lines: seq<string>)
    ensures UnfoldOnto(lines, SplitOn("", '\n')) == lines + [""]
  {
    assert SplitOn("", '\n') == [""] && [""][1..] == [];
  }

  lemma RawsHaveNoFeed(f: Folded)
    requires ValidFold(f) && '\n' !in TextOf(f)
    ensures forall i :: 0 <= i < |Raws(f)| ==> '\n' !in Raws(f)[i]
  {
    assert forall c :: c in f.first ==> c in TextOf(f);
    assert forall c :: c in Joined(f.rest) ==> c in TextOf(f);
    JoinedHasNoFeed(f.rest, f.cr);
  }

  /** Lines printed and folded anywhere unfold to exactly their texts. */
  lemma FoldingRoundTrip(fs: seq<Folded>)
    requires forall f :: f in fs ==> ValidFold(f) && '\n' !in TextOf(f)
    ensures Unfolded(Print(fs)) == Texts(fs) + [""]
  {
    UnfoldPrinted([], fs);
    assert [] + Texts(fs) == Texts(fs);
  }

  predicate Printable(l: Line) {
    PlainName(l.name) && ColonsQuoted(l.params) && '\n' !in l.name && '\n' !in l.params
  }

  lemma ContentLineHasNoFeed(l: Line)
    requires Printable(l)
    ensures '\n' !in ContentLine(l)
  {
    EscapedHasNoNewline(l.value);
  }

  /** Content lines printed with escaping and folded at any positions come back as they were. */
  lemma PrintedLinesComeBack(ls: seq<Line>, fs: seq<Folded>, i: nat)
    requires |ls| == |fs| && i < |ls|
    requires forall k :: 0 <= k < |ls| ==>
      Printable(ls[k]) && ValidFold(fs[k]) && TextOf(fs[k]) == ContentLine(ls[k])
    ensures |Unfolded(Print(fs))| == |ls| + 1
    ensures Parsed(Unfolded(Print(fs))[i]) == Some(ls[i])
  {
    hide Printable, ValidFold, TextOf, ContentLine, Parsed, Print;
    forall k | 0 <= k < |ls| ensures '\n' !in TextOf(fs[k]) {
      ContentLineHasNoFeed(ls[k]);
    }
    FoldingRoundTrip(fs);
    TextAt(fs, i);
    PrintableParts(ls[i]);
    ContentLineRoundTrip(ls[i]);
  }

  lemma PrintableParts(l: Line)
    requires Printable(l)
    ensures PlainName(l.name) && ColonsQuoted(l.params)
  {
  }

  lemma {:induction false} TextAt(fs: seq<Folded>, i: nat)
    requires i < |fs|
    ensures |Texts(fs)| == |fs| && Texts(fs)[i] == TextOf(fs[i])
  {
    hide TextOf;
    if i > 0 {
      TextAt(fs[1..], i - 1);
    } else if |fs| > 1 {
      TextAt(fs[1..], 0);
    }
  }

  // ----- Participants ---------------------------------------------------------

  lemma {:induction false} QuotesTrimmed(s: string)
    requires s != "" && s[0] != '"' && s[|s| - 1] != '"'
    ensures TrimQuotesEnd(TrimQuotesStart("\"" + s + "\"")) == s
  {
    var quoted := "\"" + s + "\"";
    assert quoted[1..] == s + "\"";
    assert TrimQuotesStart(s + "\"") == s + "\"";
    assert (s + "\"")[..|s|] == s;
  }

  /** A quoted common name is the participant's name, whatever the address. */
  lemma QuotedNameIsRead(property: string, cn: string, address: string)
    requires cn != "" && Trim(cn) == cn && '"' !in cn && ';' !in cn
    ensures Participant(Line(property, "CN=\"" + cn + "\"", address)) == Some(cn)
  {
    hide Trim, TrimQuotesStart, TrimQuotesEnd, SplitOn;
    var params := "CN=\"" + cn + "\"";
    SplitAtNone(params, ';');
    assert params[..3] == "CN=" && params[3..] == "\"" + cn + "\"";
    QuotesTrimmed(cn);
  }

  /** Without a common name it is the address, with or without `mailto:` in front. */
  lemma AddressIsRead(property: string, address: string)
    requires address != "" && Trim(address) == address && Trim("mailto:" + address) == "mailto:" + address
    requires !("mailto:" <= address)
    ensures Participant(Line(property, "", address)) == Some(address)
    ensures Participant(Line(property, "", "mailto:" + address)) == Some(address)
  {
    hide Trim, TrimQuotesStart, TrimQuotesEnd;
    assert SplitOn("", ';') == [""] && [""][1..] == [];
    assert !("CN=" <= "");
    assert ("mailto:" + address)[7..] == address;
  }

  /** Parameters one after the other. */
  function WithSemicolons(parts: seq<string>): string
    requires parts != []
  {
    if |parts| == 1 then parts[0] else parts[0] + ";" + WithSemicolons(parts[1..])
  }

  lemma {:induction false} SplitFirst(part: string, rest: string)
    requires ';' !in part
    ensures SplitOn(part + ";" + rest, ';') == [part] + SplitOn(rest, ';')
  {
    var whole := part + ";" + rest;
    if part == "" {
      assert whole[1..] == rest;
    } else {
      assert whole[1..] == part[1..] + ";" + rest;
      SplitFirst(part[1..], rest);
      assert [part[0]] + part[1..] == part;
    }
  }

  lemma {:induction false} SplitParts(parts: seq<string>)
    requires parts != [] && forall i :: 0 <= i < |parts| ==> ';' !in parts[i]
    ensures SplitOn(WithSemicolons(parts), ';') == parts
  {
    if |parts| == 1 {
      SplitAtNone(parts[0], ';');
    } else {
      SplitFirst(parts[0], WithSemicolons(parts[1..]));
      SplitParts(parts[1..]);
    }
  }

  /** No common name, or an empty one. */
  predicate NamesNobody(part: string) {
    |part| < 3 || part[..3] != "CN=" || part == "CN=" || part == "CN=\"\""
  }

  lemma EmptyName(part: string)
    requires NamesNobody(part)
    ensures CommonName([part]) == None
  {
    if 3 <= |part| && part[..3] == "CN=" {
      assert part[3..] == "" || part[3..] == "\"\"";
      assert "\"\""[1..] == "\"" && "\""[1..] == "";
      assert TrimQuotesStart("\"\"") == "" && Trim("") == "";
    }
    assert [part][1..] == [];
  }

  lemma {:induction false} NobodyUpTo(parts: seq<string>, k: nat)
    requires k <= |parts| && forall j :: 0 <= j < k ==> NamesNobody(parts[j])
    ensures CommonName(parts) == CommonName(parts[k..])
  {
    hide NamesNobody, Trim, TrimQuotesStart, TrimQuotesEnd;
    if k == 0 {
      assert parts[0..] == parts;
    } else {
      EmptyName(parts[0]);
      NobodyUpTo(parts[1..], k - 1);
      assert parts[1..][k - 1..] == parts[k..];
    }
  }

  /** Parameters that may stand one after the other. */
  predicate Apart(parts: seq<string>) {
    parts != [] && forall i :: 0 <= i < |parts| ==> ';' !in parts[i]
  }

  ghost predicate IsCommonName(part: string, cn: string) {
    && cn != "" && Trim(cn) == cn && cn[0] != '"' && cn[|cn| - 1] != '"'
    && (part == "CN=" + cn || part == "CN=\"" + cn + "\"")
  }

  /** The first common name that is not empty is the participant's, among whatever parameters, quoted or not. */
  lemma NameAmongParameters(property: string, parts: seq<string>, k: nat, cn: string, address: string)
    requires Apart(parts) && k < |parts| && IsCommonName(parts[k], cn)
    requires forall j :: 0 <= j < k ==> NamesNobody(parts[j])
    ensures Participant(Line(property, WithSemicolons(parts), address)) == Some(cn)
  {
    hide Trim, SplitOn, NamesNobody, WithSemicolons, CommonName, Apart, IsCommonName, Text.IsSpace;
    SplitApart(parts);
    NobodyUpTo(parts, k);
    CommonNameIsRead(parts[k..], cn);
  }

  lemma SplitApart(parts: seq<string>)
    requires Apart(parts)
    ensures parts != [] && SplitOn(WithSemicolons(parts), ';') == parts
  {
    SplitParts(parts);
  }

  lemma CommonNameIsRead(parts: seq<string>, cn: string)
    requires parts != [] && IsCommonName(parts[0], cn)
    ensures CommonName(parts) == Some(cn)
  {
    hide Trim, CommonName, TrimQuotesStart, TrimQuotesEnd;
    QuotesTrimmed(cn);
    NoQuotesTrimmed(cn);
    NameHere(parts, if parts[0] == "CN=" + cn then cn else "\"" + cn + "\"", cn);
  }

  lemma NameHere(parts: seq<string>, written: string, cn: string)
    requires parts != [] && parts[0] == "CN=" + written && cn != ""
    requires Trim(TrimQuotesEnd(TrimQuotesStart(written))) == cn
    ensures CommonName(parts) == Some(cn)
  {
    hide Trim, TrimQuotesStart, TrimQuotesEnd;
    assert parts[0][..3] == "CN=" && parts[0][3..] == written;
  }

  lemma NoQuotesTrimmed(s: string)
    requires s != "" && s[0] != '"' && s[|s| - 1] != '"'
    ensures TrimQuotesEnd(TrimQuotesStart(s)) == s
  {
  }

  /** Where nobody is named it is the address without its scheme, and nobody for an empty one. */
  lemma AddressWithoutName(property: string, parts: seq<string>, address: string)
    requires Apart(parts) && forall i :: 0 <= i < |parts| ==> NamesNobody(parts[i])
    ensures
      Tight(address) && !("mailto:" <= address) ==>
        && Participant(Line(property, WithSemicolons(parts), address)) == Some(address)
        && Participant(Line(property, WithSemicolons(parts), "mailto:" + address)) == Some(address)
    ensures Participant(Line(property, WithSemicolons(parts), "")) == None
    ensures Participant(Line(property, WithSemicolons(parts), "mailto:")) == None
  {
    hide SplitOn, NamesNobody, WithSemicolons, CommonName, Apart, Participant, Tight;
    SplitApart(parts);
    NobodyUpTo(parts, |parts|);
    NobodyAtAll();
    assert parts[|parts|..] == [];
    var params := WithSemicolons(parts);
    OnlyTheAddress(Line(property, params, ""), "");
    OnlyTheAddress(Line(property, params, "mailto:"), "");
    if Tight(address) && !("mailto:" <= address) {
      TightIsNotEmpty(address);
      OnlyTheAddress(Line(property, params, address), address);
      OnlyTheAddress(Line(property, params, "mailto:" + address), address);
    }
  }

  lemma TightIsNotEmpty(s: string)
    requires Tight(s)
    ensures s != ""
  {
  }

  lemma OnlyTheAddress(l: Line, address: string)
    requires CommonName(SplitOn(l.params, ';')) == None
    requires address == "" || Tight(address)
    requires (l.value == address && !("mailto:" <= address)) || l.value == "mailto:" + address
    ensures Participant(l) == if address == "" then None else Some(address)
  {
    hide SplitOn, CommonName, Trim, IsSpace;
    NothingIsTrimmed();
    if address != "" {
      MailtoIsTight(address);
      TrimOfTight(address);
      TrimOfTight("mailto:" + address);
    }
    if l.value == "mailto:" + address {
      assert "mailto:" + "" == "mailto:" && l.value[7..] == address;
    }
  }

  lemma NobodyAtAll()
    ensures CommonName([]) == None
  {
  }

  lemma NothingIsTrimmed()
    ensures Trim("") == "" && Trim("mailto:") == "mailto:"
  {
  }

  lemma MailtoIsTight(address: string)
    requires Tight(address)
    ensures Tight("mailto:" + address)
  {
  }
}
