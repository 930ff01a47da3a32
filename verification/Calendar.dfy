/**
 The iCalendar reader (crates/pond-adapters-caldav/src/ics.rs): unfolding, content lines and
 the event machine. Date parsing and the wording of a date are parameters.
 */
module Calendar {
  import opened Results
  import opened Text

  /** `parse` reads a date value; `when` words a start and an end. */
  datatype Dates = Dates(parse: string -> Option<int>, when: (int, Option<int>) -> string)

  datatype Item = Item(
    externalId: string,
    occurredAt: int,
    title: string,
    body: string,
    participants: seq<string>)

  /** One property line, after unfolding. */
  datatype Line = Line(name: string, params: string, value: string)

  // ----- Folding --------------------------------------------------------------

  /** The pieces between separators; always at least one. */
  function SplitOn(s: string, sep: char): (r: seq<string>)
    ensures |r| > 0
  {
    if s == "" then [""]
    else if s[0] == sep then [""] + SplitOn(s[1..], sep)
    else
      var rest := SplitOn(s[1..], sep);
      [[s[0]] + rest[0]] + rest[1..]
  }

  function StripCr(raw: string): string {
    if raw != "" && raw[|raw| - 1] == '\r' then raw[..|raw| - 1] else raw
  }

  predicate Continues(line: string) {
    line != "" && (line[0] == ' ' || line[0] == '\t')
  }

  /** A continuation joins the line before it, if there is one; any other line stands alone. */
  function Absorb(lines: seq<string>, line: string): seq<string> {
    if !Continues(line) then lines + [line]
    else if lines == [] then lines
    else lines[..|lines| - 1] + [lines[|lines| - 1] + line[1..]]
  }

  function UnfoldOnto(lines: seq<string>, raws: seq<string>): seq<string>
    decreases |raws|
  {
    if raws == [] then lines else UnfoldOnto(Absorb(lines, StripCr(raws[0])), raws[1..])
  }

  function Unfolded(body: string): seq<string> {
    UnfoldOnto([], SplitOn(body, '\n'))
  }

  method Unfold(body: string) returns (lines: seq<string>)
    ensures lines == Unfolded(body)
  {
    var raws := SplitOn(body, '\n');
    lines := [];
    for i := 0 to |raws|
      invariant UnfoldOnto([], raws) == UnfoldOnto(lines, raws[i..])
    {
      assert raws[i..][1..] == raws[i + 1..];
      var line := StripCr(raws[i]);
      if Continues(line) {
        if lines != [] {
          lines := lines[..|lines| - 1] + [lines[|lines| - 1] + line[1..]];
        }
      } else {
        lines := lines + [line];
      }
    }
  }

  // ----- Escaping -------------------------------------------------------------

  /** What a backslash before `c` stands for. */
  function Meaning(c: char): char {
    if c == 'n' || c == 'N' then '\n' else c
  }

  function Unescaped(value: string): string {
    if value == "" then ""
    else if value[0] != '\\' then [value[0]] + Unescaped(value[1..])
    else if |value| == 1 then "\\"
    else [Meaning(value[1])] + Unescaped(value[2..])
  }

  method Unescape(value: string) returns (out: string)
    ensures out == Unescaped(value)
  {
    hide Unescaped;
    out := "";
    var i := 0;
    assert value[0..] == value && "" + Unescaped(value) == Unescaped(value);
    while i < |value|
      invariant i <= |value|
      invariant Unescaped(value) == out + Unescaped(value[i..])
    {
      UnescapeStep(out, value, i);
      var c := value[i];
      i := i + 1;
      if c != '\\' {
        out := out + [c];
        continue;
      }
      if i == |value| {
        out := out + ['\\'];
        continue;
      }
      var next := value[i];
      i := i + 1;
      match next {
        case 'n' => out := out + ['\n'];
        case 'N' => out := out + ['\n'];
        case '\\' => out := out + ['\\'];
        case ',' => out := out + [','];
        case ';' => out := out + [';'];
        case _ => out := out + [next];
      }
    }
    UnescapeEnd(value, out);
  }

  lemma UnescapeEnd(value: string, out: string)
    ensures out + Unescaped(value[|value|..]) == out
  {
  }

  lemma UnescapeStep(out: string, value: string, i: nat)
    requires i < |value|
    ensures out + Unescaped(value[i..]) ==
      if value[i] != '\\' then (out + [value[i]]) + Unescaped(value[i + 1..])
      else if i + 1 == |value| then (out + ['\\']) + Unescaped(value[i + 1..])
      else (out + [Meaning(value[i + 1])]) + Unescaped(value[i + 2..])
  {
    var rest := value[i..];
    assert rest[1..] == value[i + 1..];
    if i + 1 < |value| {
      assert rest[2..] == value[i + 2..];
    }
  }

  // ----- Content lines --------------------------------------------------------

  /** The first colon outside quotes, when the scan starts inside quotes or not. */
  function ColonFrom(s: string, inQuotes: bool): (k: nat)
    ensures k <= |s| && (k < |s| ==> s[k] == ':')
  {
    if s == "" then 0
    else if s[0] == ':' && !inQuotes then 0
    else 1 + ColonFrom(s[1..], if s[0] == '"' then !inQuotes else inQuotes)
  }

  function IndexOf(s: string, c: char): (k: nat)
    ensures k <= |s| && (k < |s| ==> s[k] == c) && c !in s[..k]
  {
    if s == "" || s[0] == c then 0 else 1 + IndexOf(s[1..], c)
  }

  function SplitHead(head: string): (string, string) {
    var k := IndexOf(head, ';');
    if k < |head| then (head[..k], head[k + 1..]) else (head, "")
  }

  function Parsed(line: string): Option<Line> {
    var colon := ColonFrom(line, false);
    if colon == |line| then None
    else
      var (name, params) := SplitHead(line[..colon]);
      Some(Line(Trim(name), params, Unescaped(line[colon + 1..])))
  }

  method ParseLine(line: string) returns (r: Option<Line>)
    ensures r == Parsed(line)
  {
    var inQuotes := false;
    var colon: Option<nat> := None;
    for i := 0 to |line|
      invariant colon == None && ColonFrom(line, false) == i + ColonFrom(line[i..], inQuotes)
    {
      assert line[i..][1..] == line[i + 1..];
      if line[i] == '"' {
        inQuotes := !inQuotes;
      } else if line[i] == ':' && !inQuotes {
        colon := Some(i);
        break;
      }
    }
    if colon.None? {
      return None;
    }
    var head, rest := line[..colon.value], line[colon.value + 1..];
    var name, params := head, "";
    var semicolon := IndexOf(head, ';');
    if semicolon < |head| {
      name, params := head[..semicolon], head[semicolon + 1..];
    }
    var value := Unescape(rest);
    r := Some(Line(Trim(name), params, value));
  }

  // ----- Participants ---------------------------------------------------------

  function StripPrefix(s: string, prefix: string): Option<string> {
    if prefix <= s then Some(s[|prefix|..]) else None
  }

  function TrimQuotesStart(s: string): string {
    if s != "" && s[0] == '"' then TrimQuotesStart(s[1..]) else s
  }

  function TrimQuotesEnd(s: string): string {
    if s != "" && s[|s| - 1] == '"' then TrimQuotesEnd(s[..|s| - 1]) else s
  }

  function CommonName(parts: seq<string>): Option<string> {
    if parts == [] then None
    else
      var cn := StripPrefix(parts[0], "CN=");
      var name := if cn.Some? then Trim(TrimQuotesEnd(TrimQuotesStart(cn.value))) else "";
      if name != "" then Some(name) else CommonName(parts[1..])
  }

  /** A calendar address by its name, or by itself without `mailto:`; None when it is empty. */
  function Participant(line: Line): Option<string> {
    var cn := CommonName(SplitOn(line.params, ';'));
    if cn.Some? then cn
    else
      var whole := Trim(line.value);
      var address := StripPrefix(whole, "mailto:").GetOr(whole);
      if address == "" then None else Some(address)
  }

  // ----- The event machine ----------------------------------------------------

  datatype State = State(
    inEvent: bool,
    uid: Option<string>,
    recurrenceId: Option<string>,
    summary: string,
    description: string,
    location: string,
    start: Option<int>,
    end: Option<int>,
    participants: seq<string>,
    items: seq<Item>)

  const Initial := State(false, None, None, "", "", "", None, None, [], [])

  predicate IsBegin(line: string) {
    Lower(Trim(line)) == "begin:vevent"
  }

  predicate IsEnd(line: string) {
    Lower(Trim(line)) == "end:vevent"
  }

  function Body(dates: Dates, start: int, end: Option<int>, location: string, description: string): string {
    dates.when(start, end)
    + (if Trim(location) != "" then "\nWhere: " + Trim(location) else "")
    + (if Trim(description) != "" then "\n" + Trim(description) else "")
  }

  function Title(summary: string): string {
    if Trim(summary) == "" then "(untitled event)" else Trim(summary)
  }

  function ExternalId(uid: string, recurrenceId: Option<string>): string {
    if recurrenceId.Some? then uid + ":" + recurrenceId.value else uid
  }

  function SetField(st: State, line: Line, dates: Dates): State {
    var name := Upper(line.name);
    if name == "UID" then st.(uid := Some(Trim(line.value)))
    else if name == "RECURRENCE-ID" then st.(recurrenceId := Some(Trim(line.value)))
    else if name == "SUMMARY" then st.(summary := line.value)
    else if name == "DESCRIPTION" then st.(description := line.value)
    else if name == "LOCATION" then st.(location := line.value)
    else if name == "DTSTART" then st.(start := dates.parse(line.value))
    else if name == "DTEND" then st.(end := dates.parse(line.value))
    else if name == "ATTENDEE" || name == "ORGANIZER" then
      var p := Participant(line);
      if p.Some? && p.value !in st.participants
      then st.(participants := st.participants + [p.value]) else st
    else st
  }

  function CloseEvent(st: State, dates: Dates): State {
    var closed := st.(inEvent := false, uid := None);
    if st.uid.Some? && st.start.Some? then
      closed.(participants := [],
              items := st.items + [Item(ExternalId(st.uid.value, st.recurrenceId), st.start.value,
                                        Title(st.summary),
                                        Body(dates, st.start.value, st.end, st.location, st.description),
                                        st.participants)])
    else closed
  }

  function Step(st: State, line: string, dates: Dates): State {
    if IsBegin(line) then State(true, None, None, "", "", "", None, None, [], st.items)
    else if IsEnd(line) then CloseEvent(st, dates)
    else if !st.inEvent || Parsed(Trim(line)).None? then st
    else SetField(st, Parsed(Trim(line)).value, dates)
  }

  function Run(st: State, lines: seq<string>, dates: Dates): State
    decreases |lines|
  {
    if lines == [] then st else Run(Step(st, lines[0], dates), lines[1..], dates)
  }

  function Events(body: string, dates: Dates): seq<Item> {
    Run(Initial, Unfolded(body), dates).items
  }

  /** Every event with a UID and a start, in order. */
  method EventsFromIcs(body: string, dates: Dates) returns (items: seq<Item>)
    ensures items == Events(body, dates)
  {
    hide Participant, Body, Title, ExternalId, UnfoldOnto, Parsed, Upper, Lower, Trim;
    items := [];
    var inEvent := false;
    var uid: Option<string>, recurrenceId: Option<string> := None, None;
    var summary, description, location := "", "", "";
    var start: Option<int>, end: Option<int> := None, None;
    var participants: seq<string> := [];
    var lines := Unfold(body);
    for i := 0 to |lines|
      invariant Run(Initial, lines, dates) ==
        Run(State(inEvent, uid, recurrenceId, summary, description, location, start, end, participants, items),
            lines[i..], dates)
    {
      assert lines[i..][1..] == lines[i + 1..];
      var line := lines[i];
      if IsBegin(line) {
        inEvent := true;
        uid, recurrenceId := None, None;
        summary, description, location := "", "", "";
        start, end := None, None;
        participants := [];
        continue;
      }
      if IsEnd(line) {
        inEvent := false;
        var taken := uid;
        uid := None;
        if taken.Some? && start.Some? {
          var body := Body(dates, start.value, end, location, description);
          items := items + [Item(ExternalId(taken.value, recurrenceId), start.value,
                                 Title(summary), body, participants)];
          participants := [];
        }
        continue;
      }
      if !inEvent {
        continue;
      }
      var parsed := ParseLine(Trim(line));
      if parsed.None? {
        continue;
      }
      var value := parsed.value.value;
      var name := Upper(parsed.value.name);
      if name == "UID" {
        uid := Some(Trim(value));
      } else if name == "RECURRENCE-ID" {
        recurrenceId := Some(Trim(value));
      } else if name == "SUMMARY" {
        summary := value;
      } else if name == "DESCRIPTION" {
        description := value;
      } else if name == "LOCATION" {
        location := value;
      } else if name == "DTSTART" {
        start := dates.parse(value);
      } else if name == "DTEND" {
        end := dates.parse(value);
      } else if name == "ATTENDEE" || name == "ORGANIZER" {
        var p := Participant(parsed.value);
        if p.Some? && p.value !in participants {
          participants := participants + [p.value];
        }
      }
    }
  }
}
