/**
 What the iCalendar reader makes of printed events (crates/pond-adapters-caldav/src/ics.rs):
 from any calendar of events, however its lines are folded, one item for each event that has a
 readable start, with every field written out.
 */
module CalendarEvents {
  import opened Results
  import opened Text
  import opened Calendar
  import opened CalendarProperties

  // ----- Printed events -------------------------------------------------------

  datatype Person = Named(cn: string, address: string) | Addressed(address: string)

  /** One event, between whatever lines open and close it. */
  datatype Event = Event(
    opening: string, closing: string,
    uid: string, recurrenceId: Option<string>, summary: string, description: string, location: string,
    start: string, end: Option<string>, people: seq<Person>)

  function PersonLine(p: Person): Line {
    match p
    case Named(cn, address) => Line("ATTENDEE", "CN=\"" + cn + "\"", "mailto:" + address)
    case Addressed(address) => Line("ORGANIZER", "", "mailto:" + address)
  }

  function PeopleLines(people: seq<Person>): (r: seq<Line>)
    ensures |r| == |people|
  {
    seq(|people|, i requires 0 <= i < |people| => PersonLine(people[i]))
  }

  function Always(e: Event): seq<Line> {
    [Line("UID", "", e.uid), Line("SUMMARY", "", e.summary), Line("DESCRIPTION", "", e.description),
     Line("LOCATION", "", e.location), Line("DTSTART", "", e.start)]
  }

  function Sometimes(name: string, value: Option<string>): seq<Line> {
    if value.Some? then [Line(name, "", value.value)] else []
  }

  function EventLines(e: Event): seq<Line> {
    Always(e) + Sometimes("RECURRENCE-ID", e.recurrenceId) + Sometimes("DTEND", e.end) + PeopleLines(e.people)
  }

  function ContentLines(ls: seq<Line>): seq<string> {
    if ls == [] then [] else [ContentLine(ls[0])] + ContentLines(ls[1..])
  }

  function EventTexts(e: Event): seq<string> {
    [e.opening] + (ContentLines(EventLines(e)) + [e.closing])
  }

  function CalendarTexts(es: seq<Event>): seq<string> {
    if es == [] then [] else EventTexts(es[0]) + CalendarTexts(es[1..])
  }

  // ----- What they should read as ---------------------------------------------

  function NameOf(p: Person): string {
    if p.Named? then p.cn else p.address
  }

  /** Each name once, where it first stands. */
  function Names(people: seq<Person>): seq<string> {
    if people == [] then []
    else
      var before, last := Names(people[..|people| - 1]), NameOf(people[|people| - 1]);
      if last in before then before else before + [last]
  }

  function ItemFor(e: Event, dates: Dates): seq<Item> {
    var start := dates.parse(e.start);
    var end := if e.end.Some? then dates.parse(e.end.value) else None;
    if start.None? then []
    else
      [Item(
        if e.recurrenceId.Some? then e.uid + ":" + e.recurrenceId.value else e.uid,
        start.value,
        if e.summary == "" then "(untitled event)" else e.summary,
        dates.when(start.value, end)
        + (if e.location == "" then "" else "\nWhere: " + e.location)
        + (if e.description == "" then "" else "\n" + e.description),
        Names(e.people))]
  }

  function ItemsFor(es: seq<Event>, dates: Dates): seq<Item> {
    if es == [] then [] else ItemFor(es[0], dates) + ItemsFor(es[1..], dates)
  }

  // ----- Which events these are -----------------------------------------------

  /** No spaces at its ends. */
  predicate Neat(s: string) {
    s == "" || Tight(s)
  }

  predicate ValidPerson(p: Person) {
    && Tight(p.address) && !("mailto:" <= p.address)
    && (p.Named? ==> Tight(p.cn) && '"' !in p.cn && ';' !in p.cn && '\n' !in p.cn)
  }

  /** `s` is `word` in any letter case, with spaces around it or not. */
  ghost predicate Marks(s: string, word: string) {
    exists front: string, back: string, core: string ::
      Blank(front) && Blank(back) && Upper(core) == word && s == front + core + back
  }

  ghost predicate ValidEvent(e: Event) {
    && Marks(e.opening, "BEGIN:VEVENT") && Marks(e.closing, "END:VEVENT")
    && Neat(e.uid) && Neat(e.summary) && Neat(e.description) && Neat(e.location) && Neat(e.start)
    && (e.recurrenceId.Some? ==> Neat(e.recurrenceId.value)) && (e.end.Some? ==> Neat(e.end.value))
    && forall i :: 0 <= i < |e.people| ==> ValidPerson(e.people[i])
  }

  // ----- Lines ----------------------------------------------------------------

  lemma CasesMeet(s: string)
    ensures Lower(Upper(s)) == Lower(s)
  {
  }

  lemma MarkIsRead(s: string, word: string)
    requires Marks(s, word) && Tight(word)
    ensures Lower(Trim(s)) == Lower(word)
  {
    hide Upper, Lower, Blank, IsSpace, Trim;
    var front: string, back: string, core: string :|
      Blank(front) && Blank(back) && Upper(core) == word && s == front + core + back;
    TightOfUpper(core);
    TrimTakesTheMiddle(front, core, back);
    CasesMeet(core);
  }

  lemma TightOfUpper(s: string)
    requires Tight(Upper(s))
    ensures Tight(s)
  {
  }

  lemma OpeningIsRead(e: Event)
    requires ValidEvent(e)
    ensures IsBegin(e.opening) && !IsBegin(e.closing) && IsEnd(e.closing)
  {
    hide Lower, Trim, Marks;
    MarkIsRead(e.opening, "BEGIN:VEVENT");
    MarkIsRead(e.closing, "END:VEVENT");
    MarksInLowerCase();
  }

  lemma MarksInLowerCase()
    ensures Lower("BEGIN:VEVENT") == "begin:vevent" && Lower("END:VEVENT") == "end:vevent"
  {
  }

  /** A property name as the standard prints it, none of them on `B` or `E`. */
  predicate PropertyName(s: string) {
    s != "" && s[0] != 'B' && s[0] != 'E' && forall i :: 0 <= i < |s| ==> 'A' <= s[i] <= 'Z' || s[i] == '-'
  }

  lemma PropertyNameIsPlain(s: string)
    requires PropertyName(s)
    ensures PlainName(s) && Tight(s) && Upper(s) == s && '\n' !in s
  {
    TrimOfTight(s);
  }

  lemma {:induction false} EscapedEnds(value: string)
    requires value != "" && !IsSpace(value[|value| - 1])
    ensures Escaped(value) != "" && !IsSpace(Escaped(value)[|Escaped(value)| - 1])
  {
    hide IsSpace, EscapedChar;
    EscapedCharEnds(value[0]);
    if |value| > 1 {
      EscapedEnds(value[1..]);
    } else {
      assert Escaped(value[1..]) == "";
    }
  }

  lemma EscapedCharEnds(c: char)
    ensures EscapedChar(c) != ""
    ensures !IsSpace(c) ==> !IsSpace(EscapedChar(c)[|EscapedChar(c)| - 1])
  {
  }

  predicate Readable(l: Line) {
    PropertyName(l.name) && Neat(l.value) && '\n' !in l.params && ColonsQuoted(l.params)
  }

  lemma LineIsRead(l: Line)
    requires Readable(l)
    ensures Printable(l) && Parsed(Trim(ContentLine(l))) == Some(l)
    ensures !IsBegin(ContentLine(l)) && !IsEnd(ContentLine(l))
  {
    hide Parsed, ColonsQuoted, Escaped, Trim, IsSpace, PlainName;
    PropertyNameIsPlain(l.name);
    ContentLineRoundTrip(l);
    var text := ContentLine(l);
    if l.value != "" {
      EscapedEnds(l.value);
    } else {
      NothingEscaped();
    }
    assert text[0] == l.name[0];
    assert !IsSpace(':') by {
      ColonIsNoSpace();
    }
    assert Tight(text);
    TrimOfTight(text);
    assert Lower(text)[0] == LowerChar(l.name[0]);
  }

  lemma NothingEscaped()
    ensures Escaped("") == ""
  {
  }

  lemma ColonIsNoSpace()
    ensures !IsSpace(':')
  {
  }

  lemma {:induction false} LinesAreRead(ls: seq<Line>, open: seq<Line>, more: seq<string>, dates: Dates)
    requires forall i :: 0 <= i < |ls| ==> Readable(ls[i])
    ensures Walk(ContentLines(ls) + more, Some(open), dates) == Walk(more, Some(open + ls), dates)
    decreases |ls|
  {
    hide Readable, ContentLine, Walk;
    if ls == [] {
      assert ContentLines(ls) + more == more && open + ls == open;
    } else {
      var rest := ContentLines(ls[1..]) + more;
      assert ContentLines(ls) + more == [ContentLine(ls[0])] + rest;
      WalkOneLine(ls[0], open, rest, dates);
      LinesAreRead(ls[1..], open + [ls[0]], more, dates);
      assert open + [ls[0]] + ls[1..] == open + ls;
    }
  }

  lemma WalkOneLine(l: Line, open: seq<Line>, rest: seq<string>, dates: Dates)
    requires Readable(l)
    ensures Walk([ContentLine(l)] + rest, Some(open), dates) == Walk(rest, Some(open + [l]), dates)
  {
    hide Readable, ContentLine, Parsed, IsBegin, IsEnd, Trim, ItemsOf;
    LineIsRead(l);
    assert ([ContentLine(l)] + rest)[1..] == rest;
  }

  // ----- Fields ---------------------------------------------------------------

  lemma LastOfFive(l0: Line, l1: Line, l2: Line, l3: Line, l4: Line, name: string)
    ensures LastValue([l0, l1, l2, l3, l4], name) ==
      if Upper(l4.name) == name then Some(l4.value) else if Upper(l3.name) == name then Some(l3.value)
      else if Upper(l2.name) == name then Some(l2.value) else if Upper(l1.name) == name then Some(l1.value)
      else if Upper(l0.name) == name then Some(l0.value) else None
  {
    hide LastValue, Upper;
    assert [l0, l1, l2, l3, l4] == [] + [l0] + [l1] + [l2] + [l3] + [l4];
    LastValueOfLonger([] + [l0] + [l1] + [l2] + [l3], l4, name);
    LastValueOfLonger([] + [l0] + [l1] + [l2], l3, name);
    LastValueOfLonger([] + [l0] + [l1], l2, name);
    LastValueOfLonger([] + [l0], l1, name);
    LastValueOfLonger([], l0, name);
    LastValueOfNone(name);
  }

  lemma LastValueOfNone(name: string)
    ensures LastValue([], name) == None
  {
  }

  lemma {:induction false} LastValueBehind(a: seq<Line>, b: seq<Line>, name: string)
    ensures LastValue(a + b, name) == if LastValue(b, name).Some? then LastValue(b, name) else LastValue(a, name)
    decreases |b|
  {
    hide Upper;
    if b == [] {
      assert a + b == a;
    } else {
      assert (a + b)[..|a + b| - 1] == a + b[..|b| - 1];
      LastValueBehind(a, b[..|b| - 1], name);
    }
  }

  lemma {:induction false} NotThere(ls: seq<Line>, name: string)
    requires forall i :: 0 <= i < |ls| ==> Upper(ls[i].name) != name
    ensures LastValue(ls, name) == None
  {
    if ls != [] {
      NotThere(ls[..|ls| - 1], name);
    }
  }

  lemma SometimesThere(key: string, value: Option<string>, name: string)
    requires Upper(key) == key
    ensures LastValue(Sometimes(key, value), name) == if key == name then value else None
  {
    hide Upper;
    if value.Some? {
      assert Sometimes(key, value) == [] + [Line(key, "", value.value)];
      LastValueOfLonger([], Line(key, "", value.value), name);
    }
    LastValueOfNone(name);
  }

  lemma FieldNames()
    ensures PropertyName("UID") && PropertyName("SUMMARY") && PropertyName("DESCRIPTION") && PropertyName("LOCATION")
    ensures PropertyName("DTSTART") && PropertyName("RECURRENCE-ID") && PropertyName("DTEND")
    ensures PropertyName("ATTENDEE") && PropertyName("ORGANIZER")
  {
  }

  lemma UpperFieldNames()
    ensures Upper("UID") == "UID" && Upper("SUMMARY") == "SUMMARY" && Upper("DESCRIPTION") == "DESCRIPTION"
    ensures Upper("LOCATION") == "LOCATION" && Upper("DTSTART") == "DTSTART" && Upper("DTEND") == "DTEND"
    ensures Upper("RECURRENCE-ID") == "RECURRENCE-ID"
    ensures Upper("ATTENDEE") == "ATTENDEE" && Upper("ORGANIZER") == "ORGANIZER"
  {
    hide PropertyName, Upper, PlainName;
    FieldNames();
    PropertyNameIsPlain("UID");
    PropertyNameIsPlain("SUMMARY");
    PropertyNameIsPlain("DESCRIPTION");
    PropertyNameIsPlain("LOCATION");
    PropertyNameIsPlain("DTSTART");
    PropertyNameIsPlain("DTEND");
    PropertyNameIsPlain("RECURRENCE-ID");
    PropertyNameIsPlain("ATTENDEE");
    PropertyNameIsPlain("ORGANIZER");
  }

  /** The value of each name an event may be asked for. */
  lemma FieldIs(e: Event, name: string)
    requires name != "ATTENDEE" && name != "ORGANIZER"
    ensures LastValue(EventLines(e), name) ==
      if name == "DTEND" && e.end.Some? then e.end
      else if name == "RECURRENCE-ID" && e.recurrenceId.Some? then e.recurrenceId
      else if name == "DTSTART" then Some(e.start) else if name == "LOCATION" then Some(e.location)
      else if name == "DESCRIPTION" then Some(e.description) else if name == "SUMMARY" then Some(e.summary)
      else if name == "UID" then Some(e.uid) else None
  {
    hide LastValue, Upper, Sometimes;
    UpperFieldNames();
    var recurrence, end, people :=
      Sometimes("RECURRENCE-ID", e.recurrenceId), Sometimes("DTEND", e.end), PeopleLines(e.people);
    LastValueBehind(Always(e) + recurrence + end, people, name);
    LastValueBehind(Always(e) + recurrence, end, name);
    LastValueBehind(Always(e), recurrence, name);
    NotThere(people, name);
    SometimesThere("RECURRENCE-ID", e.recurrenceId, name);
    SometimesThere("DTEND", e.end, name);
    LastOfFive(Line("UID", "", e.uid), Line("SUMMARY", "", e.summary), Line("DESCRIPTION", "", e.description),
               Line("LOCATION", "", e.location), Line("DTSTART", "", e.start), name);
  }

  // ----- People ---------------------------------------------------------------

  lemma {:induction false} NoQuoteInside(s: string)
    requires '"' !in s
    ensures ColonFrom(s, true) == |s| && QuotedAfter(s, true)
  {
    if s != "" {
      NoQuoteInside(s[1..]);
    }
  }

  lemma QuotedColons(cn: string)
    requires '"' !in cn
    ensures ColonsQuoted("CN=\"" + cn + "\"")
  {
    hide ColonFrom, QuotedAfter;
    assert "CN=\"" + cn + "\"" == "CN=" + ("\"" + (cn + "\""));
    NoColonNoQuote("CN=");
    ColonPast("CN=", "\"" + (cn + "\""), false);
    QuotedPast("CN=", "\"" + (cn + "\""), false);
    OneQuote(false, cn + "\"");
    NoQuoteInside(cn);
    ColonPast(cn, "\"", true);
    QuotedPast(cn, "\"", true);
    OneQuote(true, "");
    assert "\"" + "" == "\"";
    NoColonNoQuote("");
  }

  lemma OneQuote(inQuotes: bool, rest: string)
    ensures ColonFrom("\"" + rest, inQuotes) == 1 + ColonFrom(rest, !inQuotes)
    ensures QuotedAfter("\"" + rest, inQuotes) == QuotedAfter(rest, !inQuotes)
  {
    assert ("\"" + rest)[1..] == rest;
  }

  lemma {:induction false} QuotedPast(s: string, t: string, inQuotes: bool)
    ensures QuotedAfter(s + t, inQuotes) == QuotedAfter(t, QuotedAfter(s, inQuotes))
  {
    if s == "" {
      assert s + t == t;
    } else {
      assert (s + t)[1..] == s[1..] + t;
      QuotedPast(s[1..], t, if s[0] == '"' then !inQuotes else inQuotes);
    }
  }

  lemma PersonIsRead(p: Person)
    requires ValidPerson(p)
    ensures Readable(PersonLine(p)) && NamesSomeone(PersonLine(p))
    ensures Participant(PersonLine(p)) == Some(NameOf(p))
  {
    hide PropertyName, Upper, ColonsQuoted, Participant, IsSpace;
    FieldNames();
    UpperFieldNames();
    MailtoIsTight(p.address);
    TrimOfTight(p.address);
    TrimOfTight("mailto:" + p.address);
    if p.Named? {
      TrimOfTight(p.cn);
      QuotedColons(p.cn);
      QuotedNameIsRead("ATTENDEE", p.cn, "mailto:" + p.address);
    } else {
      NoParamsNoColon();
      AddressIsRead("ORGANIZER", p.address);
    }
  }

  lemma {:induction false} NobodyNamed(ls: seq<Line>)
    requires forall i :: 0 <= i < |ls| ==> !NamesSomeone(ls[i])
    ensures People(ls) == []
  {
    hide NamesSomeone, Participant;
    if ls != [] {
      NobodyNamed(ls[..|ls| - 1]);
    }
  }

  lemma {:induction false} PeopleAreRead(before: seq<Line>, people: seq<Person>)
    requires People(before) == [] && forall i :: 0 <= i < |people| ==> ValidPerson(people[i])
    ensures People(before + PeopleLines(people)) == Names(people)
    decreases |people|
  {
    hide NamesSomeone, Participant, ValidPerson, PersonLine;
    if people == [] {
      assert before + PeopleLines(people) == before;
    } else {
      var fewer := people[..|people| - 1];
      var ls := before + PeopleLines(people);
      assert ls[..|ls| - 1] == before + PeopleLines(fewer);
      PeopleAreRead(before, fewer);
      PersonIsRead(people[|people| - 1]);
    }
  }

  // ----- Whole events ---------------------------------------------------------

  lemma TrimOfNeat(s: string)
    requires Neat(s)
    ensures Trim(s) == s
  {
  }

  lemma EventIsReadable(e: Event)
    requires ValidEvent(e)
    ensures forall i :: 0 <= i < |EventLines(e)| ==> Readable(EventLines(e)[i])
    ensures People(EventLines(e)) == Names(e.people)
  {
    hide PropertyName, Upper, ColonsQuoted, Neat, Participant, PersonLine, ValidPerson, Marks;
    FieldNames();
    UpperFieldNames();
    NoParamsNoColon();
    forall i | 0 <= i < |e.people| ensures Readable(PersonLine(e.people[i])) {
      PersonIsRead(e.people[i]);
    }
    var before := Always(e) + Sometimes("RECURRENCE-ID", e.recurrenceId) + Sometimes("DTEND", e.end);
    NobodyNamed(before);
    PeopleAreRead(before, e.people);
  }

  lemma EventIsRead(e: Event, dates: Dates)
    requires ValidEvent(e)
    ensures ItemsOf(EventLines(e), dates) == ItemFor(e, dates)
  {
    hide EventLines, LastValue, Trim, Marks, Neat, ValidPerson, Names, People;
    EventIsReadable(e);
    FieldIs(e, "UID");
    FieldIs(e, "SUMMARY");
    FieldIs(e, "DESCRIPTION");
    FieldIs(e, "LOCATION");
    FieldIs(e, "DTSTART");
    FieldIs(e, "DTEND");
    FieldIs(e, "RECURRENCE-ID");
    TrimOfNeat(e.uid);
    TrimOfNeat(e.summary);
    TrimOfNeat(e.description);
    TrimOfNeat(e.location);
    if e.recurrenceId.Some? {
      TrimOfNeat(e.recurrenceId.value);
    }
  }

  lemma {:induction false} EventsAreRead(es: seq<Event>, more: seq<string>, dates: Dates)
    requires forall i :: 0 <= i < |es| ==> ValidEvent(es[i])
    ensures Walk(CalendarTexts(es) + more, None, dates) == ItemsFor(es, dates) + Walk(more, None, dates)
    decreases |es|
  {
    hide EventTexts, ItemFor, ValidEvent, Walk;
    if es == [] {
      assert CalendarTexts(es) + more == more;
      assert [] + Walk(more, None, dates) == Walk(more, None, dates);
    } else {
      var rest := CalendarTexts(es[1..]) + more;
      assert CalendarTexts(es) + more == EventTexts(es[0]) + rest;
      WalkOneEvent(es[0], rest, dates);
      EventsAreRead(es[1..], more, dates);
      assert ItemFor(es[0], dates) + (ItemsFor(es[1..], dates) + Walk(more, None, dates))
          == ItemsFor(es, dates) + Walk(more, None, dates);
    }
  }

  lemma WalkOneEvent(e: Event, rest: seq<string>, dates: Dates)
    requires ValidEvent(e)
    ensures Walk(EventTexts(e) + rest, None, dates) == ItemFor(e, dates) + Walk(rest, None, dates)
  {
    hide EventLines, ContentLines, ItemsOf, ItemFor, IsBegin, IsEnd, Parsed, Trim, ValidEvent, Readable;
    OpeningIsRead(e);
    EventIsReadable(e);
    EventIsRead(e, dates);
    var tail := [e.closing] + rest;
    var inside := ContentLines(EventLines(e)) + tail;
    assert EventTexts(e) + rest == [e.opening] + inside;
    assert ([e.opening] + inside)[1..] == inside && tail[1..] == rest;
    LinesAreRead(EventLines(e), [], tail, dates);
    assert [] + EventLines(e) == EventLines(e);
  }

  lemma {:induction false} NoFeedInTexts(es: seq<Event>)
    requires forall i :: 0 <= i < |es| ==> ValidEvent(es[i]) && '\n' !in es[i].opening && '\n' !in es[i].closing
    ensures forall t :: t in CalendarTexts(es) ==> '\n' !in t
    decreases |es|
  {
    hide EventLines, ContentLines, ValidEvent;
    if es != [] {
      NoFeedInTexts(es[1..]);
      EventIsReadable(es[0]);
      NoFeedInLines(EventLines(es[0]));
    }
  }

  lemma {:induction false} NoFeedInLines(ls: seq<Line>)
    requires forall i :: 0 <= i < |ls| ==> Readable(ls[i])
    ensures forall t :: t in ContentLines(ls) ==> '\n' !in t
    decreases |ls|
  {
    hide Readable, ContentLine, Printable;
    if ls != [] {
      LineIsRead(ls[0]);
      ContentLineHasNoFeed(ls[0]);
      NoFeedInLines(ls[1..]);
    }
  }

  /**
   A calendar of any events, its lines folded anywhere, reads as exactly one item for each event
   whose start can be read, in order, every field as printed.
   */
  lemma CalendarIsRead(es: seq<Event>, fs: seq<Folded>, dates: Dates)
    requires forall i :: 0 <= i < |es| ==> ValidEvent(es[i]) && '\n' !in es[i].opening && '\n' !in es[i].closing
    requires Texts(fs) == CalendarTexts(es) && forall f :: f in fs ==> ValidFold(f)
    ensures Events(Print(fs), dates) == ItemsFor(es, dates)
  {
    hide CalendarTexts, Texts, TextOf, ValidFold, Print, Unfolded, ValidEvent, Events, ItemsFor;
    NoFeedInTexts(es);
    forall f | f in fs ensures '\n' !in TextOf(f) {
      var i :| 0 <= i < |fs| && fs[i] == f;
      TextAt(fs, i);
    }
    FoldingRoundTrip(fs);
    EventsAreTheWalk(Print(fs), dates);
    EventsAreRead(es, [""], dates);
    NothingLeft(dates);
    assert ItemsFor(es, dates) + [] == ItemsFor(es, dates);
  }

  lemma NothingLeft(dates: Dates)
    ensures Walk([""], None, dates) == []
  {
    hide Parsed;
    assert Trim("") == "" && Lower("") == "";
    assert [""][1..] == [];
  }

  /** The instances of one recurring event, and the event itself, all have ids of their own. */
  lemma InstancesHaveTheirOwnIds(es: seq<Event>, i: nat, j: nat, dates: Dates)
    requires i < |es| && j < |es| && es[i].uid == es[j].uid
    requires dates.parse(es[i].start).Some? && dates.parse(es[j].start).Some?
    ensures ItemFor(es[i], dates)[0].externalId == ItemFor(es[j], dates)[0].externalId
      <==> es[i].recurrenceId == es[j].recurrenceId
  {
    var uid, a, b := es[i].uid, es[i].recurrenceId, es[j].recurrenceId;
    if a.Some? {
      assert (uid + ":" + a.value)[|uid| + 1..] == a.value;
    }
    if b.Some? {
      assert (uid + ":" + b.value)[|uid| + 1..] == b.value;
    }
  }
}
