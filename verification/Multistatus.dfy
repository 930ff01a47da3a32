/**
 The WebDAV `multistatus` reader (crates/pond-adapters-caldav/src/xml.rs): a machine over XML
 events with two stacks, proved to read from any document what a recursive walk of its tree
 reads, and to refuse every document cut short.
 */
module Multistatus {
  import opened Results
  import opened Text

  // ----- Events and results ---------------------------------------------------

  /**
   One event of the XML reader. `Chars` is a text or CDATA section, None when it does not
   decode; `Other` is a comment, declaration or processing instruction.
   */
  datatype Event =
    | Start(name: string)
    | SelfClosing(name: string)
    | Chars(text: Option<string>)
    | Ref(reference: Reference)
    | End(name: string)
    | Other
    | Malformed

  /** `CharRef(None)` names no character. */
  datatype Reference = CharRef(character: Option<char>) | Entity(name: string)

  datatype Response = Response(
    href: string,
    resourceTypes: seq<string>,
    displayName: Option<string>,
    calendarData: Option<string>,
    ctag: Option<string>,
    nestedHref: Option<string>)

  datatype Refusal = Unreadable | MalformedXml | EndedEarly(unclosed: nat)

  const EmptyResponse := Response("", [], None, None, None, None)

  /** The local name: what follows the last colon, in ASCII lower case. */
  function Local(name: string): string {
    Lower(AfterLastColon(name))
  }

  function AfterLastColon(name: string): string {
    if name == "" || name[|name| - 1] == ':' then ""
    else AfterLastColon(name[..|name| - 1]) + [name[|name| - 1]]
  }

  /** Whatever the namespace prefix, the local name is what follows it. */
  lemma LocalOfPrefixed(prefix: string, name: string)
    requires ':' !in name
    ensures Local(prefix + ":" + name) == Lower(name)
  {
    AfterLastColonOf(prefix, name);
  }

  /** Without a prefix it is the whole name. */
  lemma LocalOfPlain(name: string)
    requires ':' !in name
    ensures Local(name) == Lower(name)
  {
    AllAfterNoColon(name);
  }

  lemma {:induction false} AllAfterNoColon(name: string)
    requires ':' !in name
    ensures AfterLastColon(name) == name
  {
    if name != "" {
      AllAfterNoColon(name[..|name| - 1]);
    }
  }

  lemma {:induction false} AfterLastColonOf(prefix: string, name: string)
    requires ':' !in name
    ensures AfterLastColon(prefix + ":" + name) == name
  {
    if name == "" {
      assert prefix + ":" + name == prefix + ":";
    } else {
      var whole, front := prefix + ":" + name, name[..|name| - 1];
      assert whole[..|whole| - 1] == prefix + ":" + front;
      AfterLastColonOf(prefix, front);
      assert front + [name[|name| - 1]] == name;
    }
  }

  function Predefined(name: string): Option<string> {
    if name == "lt" then Some("<")
    else if name == "gt" then Some(">")
    else if name == "amp" then Some("&")
    else if name == "apos" then Some("'")
    else if name == "quot" then Some("\"")
    else None
  }

  function Resolve(reference: Reference): Option<string> {
    match reference
    case CharRef(c) => if c.Some? then Some([c.value]) else None
    case Entity(name) => Predefined(name)
  }

  predicate HoldsNextHop(name: string) {
    name == "current-user-principal" || name == "calendar-home-set" || name == "owner"
  }

  // ----- The machine ----------------------------------------------------------

  datatype State = State(
    stack: seq<string>,
    texts: seq<string>,
    current: Option<Response>,
    seenHref: bool,
    responses: seq<Response>)

  const Initial := State([], [], None, false, [])

  /** Append to the text of the innermost open element; text outside any element is dropped. */
  function AddText(texts: seq<string>, more: string): seq<string> {
    if texts == [] then texts
    else texts[..|texts| - 1] + [texts[|texts| - 1] + more]
  }

  /** What the non-empty text of a closing element named `name` contributes. */
  function Note(r: Response, seen: bool, name: string, plain: bool, text: string): (Response, bool) {
    if name == "href" then
      if !seen && plain then (r.(href := text), true)
      else (if r.nestedHref.None? then r.(nestedHref := Some(text)) else r, seen)
    else if name == "displayname" then (r.(displayName := Some(text)), seen)
    else if name == "calendar-data" then (r.(calendarData := Some(text)), seen)
    else if name == "getctag" || name == "sync-token" then (r.(ctag := Some(text)), seen)
    else (r, seen)
  }

  function Last(names: seq<string>): string {
    if names == [] then "" else names[|names| - 1]
  }

  function DropLast<T>(s: seq<T>): seq<T> {
    if s == [] then s else s[..|s| - 1]
  }

  function CloseText(st: State, text: string): State {
    if st.current.None? || text == "" || st.stack == [] then st
    else
      var plain := !exists i :: 0 <= i < |st.stack| - 1 && HoldsNextHop(st.stack[i]);
      var (r, seen) := Note(st.current.value, st.seenHref, Last(st.stack), plain, text);
      st.(current := Some(r), seenHref := seen)
  }

  function CloseElement(st: State, name: string): State {
    var noted := CloseText(st, Trim(Last(st.texts)));
    var popped := noted.(stack := DropLast(st.stack), texts := DropLast(st.texts));
    if Local(name) == "response" && popped.current.Some? then
      popped.(responses := popped.responses + [popped.current.value], current := None)
    else popped
  }

  function Step(st: State, e: Event): Result<State, Refusal> {
    match e
    case Start(name) =>
      var begun := if Local(name) == "response"
                   then st.(current := Some(EmptyResponse), seenHref := false) else st;
      Ok(begun.(stack := st.stack + [Local(name)], texts := st.texts + [""]))
    case SelfClosing(name) =>
      if st.stack != [] && Last(st.stack) == "resourcetype" && st.current.Some? then
        var r := st.current.value;
        Ok(st.(current := Some(r.(resourceTypes := r.resourceTypes + [Local(name)]))))
      else Ok(st)
    case Chars(text) =>
      if st.texts == [] then Ok(st)
      else if text.None? then Err(Unreadable)
      else Ok(st.(texts := AddText(st.texts, text.value)))
    case Ref(reference) =>
      if st.texts == [] then Ok(st)
      else if Resolve(reference).None? then Err(Unreadable)
      else Ok(st.(texts := AddText(st.texts, Resolve(reference).value)))
    case End(name) => Ok(CloseElement(st, name))
    case Other => Ok(st)
    case Malformed => Err(MalformedXml)
  }

  function Interpret(events: seq<Event>, st: State): Result<State, Refusal> {
    if events == [] then Ok(st)
    else
      match Step(st, events[0])
      case Err(e) => Err(e)
      case Ok(next) => Interpret(events[1..], next)
  }

  function AtEof(st: State): Result<seq<Response>, Refusal> {
    if st.stack != [] || st.current.Some? then Err(EndedEarly(|st.stack|)) else Ok(st.responses)
  }

  /** The reading of a whole event sequence, the end of the input included. */
  function Reading(events: seq<Event>): Result<seq<Response>, Refusal> {
    match Interpret(events, Initial)
    case Err(e) => Err(e)
    case Ok(st) => AtEof(st)
  }

  method ParseMultistatus(events: seq<Event>) returns (r: Result<seq<Response>, Refusal>)
    ensures r == Reading(events)
    ensures forall document ::
      Serialize(document) == events && Readable(document, false) ==> r == Ok(Records(document, []))
  {
    hide Local, Trim, Resolve, Note, HoldsNextHop, Serialize, Readable, Records;
    var responses: seq<Response> := [];
    var current: Option<Response> := None;
    var stack: seq<string> := [];
    var textStack: seq<string> := [];
    var seenHref := false;
    ReadingIsTheWalkForAll(events);
    for i := 0 to |events|
      invariant |stack| == |textStack|
      invariant Interpret(events, Initial)
             == Interpret(events[i..], State(stack, textStack, current, seenHref, responses))
    {
      assert events[i..][1..] == events[i + 1..];
      match events[i] {
        case Start(raw) =>
          var name := Local(raw);
          if name == "response" {
            current, seenHref := Some(EmptyResponse), false;
          }
          stack := stack + [name];
          textStack := textStack + [""];
        case SelfClosing(raw) =>
          if stack != [] && stack[|stack| - 1] == "resourcetype" && current.Some? {
            var types := current.value.resourceTypes + [Local(raw)];
            current := Some(current.value.(resourceTypes := types));
          }
        case Chars(text) =>
          if textStack != [] {
            if text.None? {
              return Err(Unreadable);
            }
            textStack := AddText(textStack, text.value);
          }
        case Ref(reference) =>
          if textStack != [] {
            var value := Resolve(reference);
            if value.None? {
              return Err(Unreadable);
            }
            textStack := AddText(textStack, value.value);
          }
        case End(raw) =>
          var text := Trim(Last(textStack));
          if current.Some? && text != "" && stack != [] {
            var plain := !exists k :: 0 <= k < |stack| - 1 && HoldsNextHop(stack[k]);
            var (noted, seen) := Note(current.value, seenHref, stack[|stack| - 1], plain, text);
            current, seenHref := Some(noted), seen;
          }
          textStack := DropLast(textStack);
          stack := DropLast(stack);
          if Local(raw) == "response" && current.Some? {
            responses := responses + [current.value];
            current := None;
          }
        case Other =>
        case Malformed =>
          return Err(MalformedXml);
      }
    }
    if stack != [] || current.Some? {
      return Err(EndedEarly(|stack|));
    }
    r := Ok(responses);
  }

  // ----- The tree and its walk ------------------------------------------------

  /** A document as a forest: an element's `children` in order, or a piece of content. */
  datatype Node = Element(name: string, children: seq<Node>) | Content(event: Event)

  /** Content is any event but a tag that opens or closes an element. */
  predicate IsContent(e: Event) {
    !e.Start? && !e.End? && !e.Malformed?
  }

  function Serialize(forest: seq<Node>): seq<Event> {
    if forest == [] then [] else SerializeNode(forest[0]) + Serialize(forest[1..])
  }

  function SerializeNode(node: Node): seq<Event> {
    match node
    case Element(name, children) => [Start(name)] + Serialize(children) + [End(name)]
    case Content(e) => [e]
  }

  /** Every piece of content is content, and inside an element all of its text can be read. */
  predicate Readable(forest: seq<Node>, inside: bool) {
    forest == [] || (ReadableNode(forest[0], inside) && Readable(forest[1..], inside))
  }

  predicate ReadableNode(node: Node, inside: bool) {
    match node
    case Element(_, children) => Readable(children, true)
    case Content(e) =>
      && IsContent(e)
      && (inside && e.Chars? ==> e.text.Some?)
      && (inside && e.Ref? ==> Resolve(e.reference).Some?)
  }

  /** The text directly inside an element, entities resolved, between its child elements too. */
  function DirectText(forest: seq<Node>): string {
    if forest == [] then "" else NodeText(forest[0]) + DirectText(forest[1..])
  }

  function NodeText(node: Node): string {
    match node
    case Content(Chars(text)) => text.GetOr("")
    case Content(Ref(reference)) => Resolve(reference).GetOr("")
    case _ => ""
  }

  predicate HasResponse(forest: seq<Node>) {
    forest != [] && (NodeHasResponse(forest[0]) || HasResponse(forest[1..]))
  }

  predicate NodeHasResponse(node: Node) {
    node.Element? && (Local(node.name) == "response" || HasResponse(node.children))
  }

  /** An element with text: its local name, the trimmed text, and whether it is a plain one. */
  datatype Property = Property(name: string, text: string, plain: bool)

  /** Not inside a property whose href is the next hop of discovery. */
  predicate Plain(ancestors: seq<string>) {
    forall i :: 0 <= i < |ancestors| ==> !HoldsNextHop(ancestors[i])
  }

  /** The properties under a forest, in the order their elements close. */
  function Properties(forest: seq<Node>, ancestors: seq<string>): seq<Property> {
    if forest == [] then []
    else NodeProperties(forest[0], ancestors) + Properties(forest[1..], ancestors)
  }

  function NodeProperties(node: Node, ancestors: seq<string>): seq<Property> {
    match node
    case Element(name, children) =>
      Properties(children, ancestors + [Local(name)]) + OwnProperty(name, children, ancestors)
    case Content(_) => []
  }

  function OwnProperty(name: string, children: seq<Node>, ancestors: seq<string>): seq<Property> {
    var text := Trim(DirectText(children));
    if text == "" then [] else [Property(Local(name), text, Plain(ancestors))]
  }

  /** The local names of the empty elements that stand directly in a `resourcetype`. */
  function Types(forest: seq<Node>, ancestors: seq<string>): seq<string> {
    if forest == [] then []
    else NodeTypes(forest[0], ancestors) + Types(forest[1..], ancestors)
  }

  function NodeTypes(node: Node, ancestors: seq<string>): seq<string> {
    match node
    case Element(name, children) => Types(children, ancestors + [Local(name)])
    case Content(e) =>
      if e.SelfClosing? && ancestors != [] && Last(ancestors) == "resourcetype"
      then [Local(e.name)] else []
  }

  function Hrefs(ps: seq<Property>): seq<Property> {
    if ps == [] then []
    else Hrefs(ps[..|ps| - 1]) + if ps[|ps| - 1].name == "href" then [ps[|ps| - 1]] else []
  }

  /** The index of the first plain property, or the length when there is none. */
  function FirstPlain(ps: seq<Property>): (k: nat)
    ensures k <= |ps| && (k < |ps| ==> ps[k].plain)
    ensures forall i :: 0 <= i < k ==> !ps[i].plain
  {
    if ps == [] || ps[0].plain then 0 else 1 + FirstPlain(ps[1..])
  }

  function HrefOf(hs: seq<Property>): string {
    if FirstPlain(hs) < |hs| then hs[FirstPlain(hs)].text else ""
  }

  /** The first href other than the first plain one. */
  function NestedOf(hs: seq<Property>): Option<string> {
    if FirstPlain(hs) > 0 then Some(hs[0].text)
    else if |hs| > 1 then Some(hs[1].text) else None
  }

  /** The last text among the properties with one of the given names. */
  function LastText(ps: seq<Property>, names: set<string>): Option<string> {
    if ps == [] then None
    else if ps[|ps| - 1].name in names then Some(ps[|ps| - 1].text)
    else LastText(ps[..|ps| - 1], names)
  }

  /**
   What a walk of one response makes of its properties and types: the first plain href, the
   first of all other hrefs, and the last text of everything else.
   */
  function Summary(ps: seq<Property>, types: seq<string>): Response {
    Response(
      HrefOf(Hrefs(ps)),
      types,
      LastText(ps, {"displayname"}),
      LastText(ps, {"calendar-data"}),
      LastText(ps, {"getctag", "sync-token"}),
      NestedOf(Hrefs(ps)))
  }

  /** The records of the responses that hold no further response, in document order. */
  function Records(forest: seq<Node>, ancestors: seq<string>): seq<Response> {
    if forest == [] then []
    else NodeRecords(forest[0], ancestors) + Records(forest[1..], ancestors)
  }

  function NodeRecords(node: Node, ancestors: seq<string>): seq<Response> {
    match node
    case Element(name, children) =>
      var inner := ancestors + [Local(name)];
      if Local(name) == "response" && !HasResponse(children) then
        [Summary(Properties(children, inner), Types(children, inner))]
      else Records(children, inner)
    case Content(_) => []
  }

  lemma ReadingIsTheWalkForAll(events: seq<Event>)
    ensures forall document ::
      Serialize(document) == events && Readable(document, false) ==>
        Reading(events) == Ok(Records(document, []))
  {
    forall document | Serialize(document) == events && Readable(document, false)
      ensures Reading(events) == Ok(Records(document, []))
    {
      ReadingIsTheWalk(document);
    }
  }

  // ----- The machine computes the walk ----------------------------------------

  lemma {:induction false} InterpretConcat(a: seq<Event>, b: seq<Event>, st: State)
    ensures Interpret(a + b, st) ==
      match Interpret(a, st) case Err(e) => Err(e) case Ok(mid) => Interpret(b, mid)
  {
    if a == [] {
      assert a + b == b;
    } else {
      assert (a + b)[1..] == a[1..] + b;
      if Step(st, a[0]).Ok? {
        InterpretConcat(a[1..], b, Step(st, a[0]).value);
      }
    }
  }

  predicate SeesHref(ps: seq<Property>) {
    FirstPlain(Hrefs(ps)) < |Hrefs(ps)|
  }

  lemma {:induction false} FirstPlainOfLonger(ps: seq<Property>, p: Property)
    ensures FirstPlain(ps + [p]) ==
      if FirstPlain(ps) < |ps| || p.plain then FirstPlain(ps) else |ps| + 1
  {
    if ps != [] && !ps[0].plain {
      assert (ps + [p])[1..] == ps[1..] + [p];
      FirstPlainOfLonger(ps[1..], p);
    } else if ps == [] {
      assert FirstPlain([p][1..]) == 0;
    }
  }

  lemma OneMoreHref(hs: seq<Property>, p: Property)
    ensures var longer, seen := hs + [p], FirstPlain(hs) < |hs|;
      if !seen && p.plain
      then HrefOf(longer) == p.text && NestedOf(longer) == NestedOf(hs) && FirstPlain(longer) < |longer|
      else HrefOf(longer) == HrefOf(hs) && (seen <==> FirstPlain(longer) < |longer|)
           && NestedOf(longer) == if NestedOf(hs).None? then Some(p.text) else NestedOf(hs)
  {
    FirstPlainOfLonger(hs, p);
  }

  /** The machine's update at a closing tag adds one property to the walk's summary. */
  lemma NoteExtendsSummary(ps: seq<Property>, types: seq<string>, p: Property)
    ensures Note(Summary(ps, types), SeesHref(ps), p.name, p.plain, p.text)
         == (Summary(ps + [p], types), SeesHref(ps + [p]))
  {
    hide LastText, Hrefs, FirstPlain, HrefOf, NestedOf;
    OneMoreHref(Hrefs(ps), p);
    HrefsOfLonger(ps, p);
    LastTextOfLonger(ps, p, {"displayname"});
    LastTextOfLonger(ps, p, {"calendar-data"});
    LastTextOfLonger(ps, p, {"getctag", "sync-token"});
  }

  lemma HrefsOfLonger(ps: seq<Property>, p: Property)
    ensures Hrefs(ps + [p]) == if p.name == "href" then Hrefs(ps) + [p] else Hrefs(ps)
  {
    var longer := ps + [p];
    assert longer[..|longer| - 1] == ps && Hrefs(ps) + [] == Hrefs(ps);
  }

  lemma LastTextOfLonger(ps: seq<Property>, p: Property, names: set<string>)
    ensures LastText(ps + [p], names) == if p.name in names then Some(p.text) else LastText(ps, names)
  {
    var longer := ps + [p];
    assert longer[..|longer| - 1] == ps;
  }

  /** `st` holds the summary of what was seen of the open response, or no response is open. */
  ghost predicate Tracks(st: State, inResponse: bool, ps: seq<Property>, types: seq<string>) {
    if inResponse then st.current == Some(Summary(ps, types)) && st.seenHref == SeesHref(ps)
    else st.current.None?
  }

  lemma AddTextTwice(texts: seq<string>, a: string, b: string)
    ensures AddText(AddText(texts, a), b) == AddText(texts, a + b)
  {
    if texts != [] {
      assert texts[|texts| - 1] + a + b == texts[|texts| - 1] + (a + b);
    }
  }

  lemma CloseTracks(st: State, name: string, children: seq<Node>, outer: State,
                    inResponse: bool, ps: seq<Property>, types: seq<string>)
    requires st.stack == outer.stack + [Local(name)]
    requires st.texts == outer.texts + [DirectText(children)]
    requires Tracks(st, inResponse, ps, types)
    requires Local(name) != "response"
    ensures var closed := CloseElement(st, name);
      && closed.stack == outer.stack && closed.texts == outer.texts
      && closed.responses == st.responses
      && Tracks(closed, inResponse, ps + OwnProperty(name, children, outer.stack), types)
  {
    hide Summary, SeesHref, DirectText, Trim, Local, Note, HoldsNextHop;
    var text := Trim(DirectText(children));
    if text == "" {
      assert ps + [] == ps;
    } else if inResponse {
      var plain := !exists i :: 0 <= i < |st.stack| - 1 && HoldsNextHop(st.stack[i]);
      assert plain == Plain(outer.stack) by {
        assert forall i :: 0 <= i < |outer.stack| ==> st.stack[i] == outer.stack[i];
      }
      NoteExtendsSummary(ps, types, Property(Local(name), text, plain));
    }
  }

  lemma CloseOutside(st: State, name: string, outer: State, text: string)
    requires st.stack == outer.stack + [Local(name)] && st.texts == outer.texts + [text]
    requires Local(name) != "response" && st.current.None?
    ensures var closed := CloseElement(st, name);
      && closed.stack == outer.stack && closed.texts == outer.texts && closed.current.None?
      && closed.responses == st.responses
  {
  }

  lemma CloseResponse(st: State, name: string, outer: State, text: string)
    requires st.stack == outer.stack + [Local(name)] && st.texts == outer.texts + [text]
    requires Local(name) == "response"
    ensures var closed := CloseElement(st, name);
      && closed.stack == outer.stack && closed.texts == outer.texts && closed.current.None?
      && closed.responses == st.responses + if st.current.Some? then [st.current.value] else []
  {
  }

  lemma ElementRuns(name: string, children: seq<Node>, rest: seq<Event>, st: State, inner: State)
    requires Interpret(Serialize(children), Step(st, Start(name)).value) == Ok(inner)
    ensures Interpret(SerializeNode(Element(name, children)) + rest, st)
         == Interpret(rest, CloseElement(inner, name))
  {
    var events := SerializeNode(Element(name, children)) + rest;
    var tail := [End(name)] + rest;
    assert events[1..] == Serialize(children) + tail;
    InterpretConcat(Serialize(children), tail, Step(st, Start(name)).value);
    assert tail[1..] == rest;
  }

  lemma {:induction false} QuietHasNoRecords(forest: seq<Node>, ancestors: seq<string>)
    requires !HasResponse(forest)
    ensures Records(forest, ancestors) == []
  {
    if forest != [] {
      QuietHasNoRecords(forest[1..], ancestors);
      if forest[0].Element? {
        QuietHasNoRecords(forest[0].children, ancestors + [Local(forest[0].name)]);
      }
    }
  }

  lemma Begin(name: string, st: State, ps: seq<Property>, types: seq<string>, text: string)
    requires |st.stack| == |st.texts| && Tracks(st, st.current.Some?, ps, types)
    ensures Step(st, Start(name)).Ok?
    ensures var begun := Step(st, Start(name)).value;
      && begun.stack == st.stack + [Local(name)] && begun.texts != []
      && |begun.stack| == |begun.texts| && begun.responses == st.responses
      && AddText(begun.texts, text) == st.texts + [text]
      && (if Local(name) == "response" then begun.current.Some? && Tracks(begun, true, [], [])
          else begun.current == st.current && Tracks(begun, st.current.Some?, ps, types))
  {
    var begun := Step(st, Start(name)).value;
    assert begun.texts[..|st.texts|] == st.texts && "" + text == text;
  }

  lemma ContentRuns(e: Event, events: seq<Event>, st: State, ps: seq<Property>, types: seq<string>)
    requires ReadableNode(Content(e), st.texts != []) && |st.stack| == |st.texts|
    requires Tracks(st, st.current.Some?, ps, types)
    ensures Step(st, e).Ok? && Interpret([e] + events, st) == Interpret(events, Step(st, e).value)
    ensures var mid := Step(st, e).value;
      && mid.stack == st.stack && mid.texts == AddText(st.texts, NodeText(Content(e)))
      && mid.responses == st.responses
      && Tracks(mid, st.current.Some?, ps, types + NodeTypes(Content(e), st.stack))
  {
    AddNothing(st.texts);
    assert ([e] + events)[1..] == events;
    assert types + [] == types;
  }

  lemma AddNothing(texts: seq<string>)
    ensures AddText(texts, "") == texts
  {
    if texts != [] {
      assert texts[|texts| - 1] + "" == texts[|texts| - 1];
    }
  }

  /** One node of a forest, for `WalkForest`. */
  lemma {:induction false} WalkNode(node: Node, events: seq<Event>, st: State,
                                    ps: seq<Property>, types: seq<string>)
      returns (mid: State)
    requires ReadableNode(node, st.texts != []) && |st.stack| == |st.texts|
    requires Tracks(st, st.current.Some?, ps, types)
    ensures Interpret(SerializeNode(node) + events, st) == Interpret(events, mid)
    ensures mid.stack == st.stack && mid.texts == AddText(st.texts, NodeText(node))
    ensures mid.responses == st.responses + NodeRecords(node, st.stack)
    ensures if NodeHasResponse(node) then mid.current.None?
            else Tracks(mid, st.current.Some?, ps + NodeProperties(node, st.stack),
                        types + NodeTypes(node, st.stack))
    decreases node
  {
    hide Summary, SeesHref, Trim, Interpret, Serialize, DirectText, Local, CloseElement;
    if node.Content? {
      ContentRuns(node.event, events, st, ps, types);
      assert ps + [] == ps && st.responses + [] == st.responses;
      mid := Step(st, node.event).value;
    } else {
      var name, children := node.name, node.children;
      Begin(name, st, ps, types, DirectText(children));
      var begun := Step(st, Start(name)).value;
      if Local(name) == "response" {
        var inner := WalkForest(children, begun, [], []);
        ElementRuns(name, children, events, st, inner);
        mid := CloseElement(inner, name);
        CloseResponse(inner, name, st, DirectText(children));
        if !HasResponse(children) {
          ResponseRecord(children, begun.stack);
        }
      } else {
        var inner := WalkForest(children, begun, ps, types);
        ElementRuns(name, children, events, st, inner);
        mid := CloseElement(inner, name);
        if HasResponse(children) {
          CloseOutside(inner, name, st, DirectText(children));
        } else {
          Assoc(ps, Properties(children, begun.stack), OwnProperty(name, children, st.stack));
          CloseTracks(inner, name, children, st, st.current.Some?,
                      ps + Properties(children, begun.stack), types + Types(children, begun.stack));
        }
      }
      AddNothing(st.texts);
    }
  }

  lemma ResponseRecord(children: seq<Node>, ancestors: seq<string>)
    requires !HasResponse(children)
    ensures Records(children, ancestors) == []
    ensures [] + Properties(children, ancestors) == Properties(children, ancestors)
    ensures [] + Types(children, ancestors) == Types(children, ancestors)
  {
    QuietHasNoRecords(children, ancestors);
  }

  /**
   What the machine does with the events of a forest. With a response open, it stands at the
   summary of all it has seen of it; a forest that holds responses leaves none open and adds
   exactly the walk's records.
   */
  lemma {:induction false} WalkForest(forest: seq<Node>, st: State,
                                      ps: seq<Property>, types: seq<string>)
      returns (end: State)
    requires Readable(forest, st.texts != []) && |st.stack| == |st.texts|
    requires Tracks(st, st.current.Some?, ps, types)
    ensures Interpret(Serialize(forest), st) == Ok(end)
    ensures end.stack == st.stack && end.texts == AddText(st.texts, DirectText(forest))
    ensures end.responses == st.responses + Records(forest, st.stack)
    ensures if HasResponse(forest) then end.current.None?
            else Tracks(end, st.current.Some?, ps + Properties(forest, st.stack),
                        types + Types(forest, st.stack))
    decreases forest
  {
    if forest == [] {
      assert ps + [] == ps && types + [] == types;
      AddNothing(st.texts);
      end := st;
    } else {
      var node, rest := forest[0], forest[1..];
      var mid := WalkNode(node, Serialize(rest), st, ps, types);
      AddTextTwice(st.texts, NodeText(node), DirectText(rest));
      Assoc(st.responses, NodeRecords(node, st.stack), Records(rest, st.stack));
      if NodeHasResponse(node) {
        end := WalkForest(rest, mid, [], []);
      } else {
        Assoc(ps, NodeProperties(node, st.stack), Properties(rest, st.stack));
        Assoc(types, NodeTypes(node, st.stack), Types(rest, st.stack));
        end := WalkForest(rest, mid, ps + NodeProperties(node, st.stack),
                          types + NodeTypes(node, st.stack));
      }
    }
  }

  lemma Assoc<T>(a: seq<T>, b: seq<T>, c: seq<T>)
    ensures (a + b) + c == a + (b + c)
  {
  }

  /** On every readable document the machine returns what the recursive walk returns. */
  lemma ReadingIsTheWalk(document: seq<Node>)
    requires Readable(document, false)
    ensures Reading(Serialize(document)) == Ok(Records(document, []))
  {
    var end := WalkForest(document, Initial, [], []);
    assert [] + Records(document, []) == Records(document, []);
  }

  // ----- What is refused ------------------------------------------------------

  predicate ContentOnly(forest: seq<Node>) {
    forest == [] ||
    (&& (match forest[0]
         case Element(_, children) => ContentOnly(children)
         case Content(e) => IsContent(e))
     && ContentOnly(forest[1..]))
  }

  lemma ContentRefused(e: Event, st: State)
    requires IsContent(e) && !ReadableNode(Content(e), st.texts != [])
    ensures Step(st, e) == Err(Unreadable)
  {
  }

  lemma InterpretOne(e: Event, more: seq<Event>, st: State)
    ensures Step(st, e).Ok? ==> Interpret([e] + more, st) == Interpret(more, Step(st, e).value)
    ensures Step(st, e).Err? ==> Interpret([e] + more, st) == Err(Step(st, e).error)
  {
    hide Step;
    assert ([e] + more)[1..] == more;
  }

  /** Text inside an element that does not decode or resolve refuses the whole reply. */
  lemma {:induction false} UnreadableForest(forest: seq<Node>, st: State,
                                            ps: seq<Property>, types: seq<string>)
    requires ContentOnly(forest) && !Readable(forest, st.texts != [])
    requires |st.stack| == |st.texts| && Tracks(st, st.current.Some?, ps, types)
    ensures Interpret(Serialize(forest), st) == Err(Unreadable)
    decreases forest
  {
    hide Summary, SeesHref, Properties, Types, Records, DirectText, Local, Interpret, Step, Resolve;
    var node, rest := forest[0], forest[1..];
    if node.Content? {
      InterpretOne(node.event, Serialize(rest), st);
      if !ReadableNode(node, st.texts != []) {
        ContentRefused(node.event, st);
      }
    }
    if ReadableNode(node, st.texts != []) {
      var mid := WalkNode(node, Serialize(rest), st, ps, types);
      if NodeHasResponse(node) {
        UnreadableForest(rest, mid, [], []);
      } else {
        UnreadableForest(rest, mid, ps + NodeProperties(node, st.stack),
                         types + NodeTypes(node, st.stack));
      }
    } else if node.Element? {
      Begin(node.name, st, ps, types, "");
      var begun := Step(st, Start(node.name)).value;
      if Local(node.name) == "response" {
        UnreadableForest(node.children, begun, [], []);
      } else {
        UnreadableForest(node.children, begun, ps, types);
      }
      ElementRefused(node.name, node.children, Serialize(rest), st);
    }
  }

  lemma ElementRefused(name: string, children: seq<Node>, more: seq<Event>, st: State)
    requires Step(st, Start(name)).Ok?
    requires Interpret(Serialize(children), Step(st, Start(name)).value) == Err(Unreadable)
    ensures Interpret(SerializeNode(Element(name, children)) + more, st) == Err(Unreadable)
  {
    hide Interpret, Step, Serialize;
    var begun, tail := Step(st, Start(name)).value, [End(name)] + more;
    assert SerializeNode(Element(name, children)) + more == [Start(name)] + (Serialize(children) + tail);
    InterpretOne(Start(name), Serialize(children) + tail, st);
    InterpretConcat(Serialize(children), tail, begun);
  }

  /** A document is accepted exactly when every text in it can be read. */
  lemma AcceptedExactlyWhenReadable(document: seq<Node>)
    requires ContentOnly(document)
    ensures Reading(Serialize(document)) ==
      if Readable(document, false) then Ok(Records(document, [])) else Err(Unreadable)
  {
    if Readable(document, false) {
      ReadingIsTheWalk(document);
    } else {
      UnreadableForest(document, Initial, [], []);
    }
  }

  lemma {:induction false} PrefixKeepsDepth(forest: seq<Node>, st: State, k: nat)
    requires ContentOnly(forest) && k <= |Serialize(forest)| && |st.stack| == |st.texts|
    ensures match Interpret(Serialize(forest)[..k], st)
            case Err(_) => true
            case Ok(end) => |end.stack| == |end.texts| && |st.stack| <= |end.stack|
    decreases forest
  {
    if forest != [] {
      var head, rest := SerializeNode(forest[0]), Serialize(forest[1..]);
      if k <= |head| {
        assert Serialize(forest)[..k] == head[..k];
        PrefixOfNode(forest[0], st, k);
      } else {
        assert Serialize(forest)[..k] == head + rest[..k - |head|];
        InterpretConcat(head, rest[..k - |head|], st);
        PrefixOfNode(forest[0], st, |head|);
        assert head[..|head|] == head;
        if Interpret(head, st).Ok? {
          PrefixKeepsDepth(forest[1..], Interpret(head, st).value, k - |head|);
        }
      }
    }
  }

  /** Inside an element's events the machine is at least one level deeper than outside. */
  lemma {:induction false} PrefixOfNode(node: Node, st: State, k: nat)
    requires ContentOnly([node]) && k <= |SerializeNode(node)| && |st.stack| == |st.texts|
    ensures match Interpret(SerializeNode(node)[..k], st)
            case Err(_) => true
            case Ok(end) => |end.stack| == |end.texts| && |st.stack| <= |end.stack|
                            && (node.Element? && 0 < k < |SerializeNode(node)| ==>
                                  |st.stack| < |end.stack|)
    decreases node
  {
    var events := SerializeNode(node);
    if node.Content? && k == 1 {
      assert events[..1] == [node.event] && [node.event][1..] == [];
    } else if node.Element? && k > 0 {
      var inside := Serialize(node.children);
      var begun := Step(st, Start(node.name)).value;
      var j := if k - 1 <= |inside| then k - 1 else |inside|;
      PrefixKeepsDepth(node.children, begun, j);
      assert events == [Start(node.name)] + inside + [End(node.name)];
      assert events[..k][0] == Start(node.name);
      if k - 1 <= |inside| {
        assert events[..k][1..] == inside[..j];
      } else {
        assert inside[..j] == inside;
        assert events[..k][1..] == inside + [End(node.name)];
        InterpretConcat(inside, [End(node.name)], begun);
        assert [End(node.name)][1..] == [];
      }
    }
  }

  /** The two stacks have equal height after any events at all. */
  lemma {:induction false} StacksStayLevel(events: seq<Event>, st: State)
    requires |st.stack| == |st.texts| && Interpret(events, st).Ok?
    ensures |Interpret(events, st).value.stack| == |Interpret(events, st).value.texts|
  {
    if events != [] {
      StacksStayLevel(events[1..], Step(st, events[0]).value);
    }
  }

  /** Cut off inside an element, whatever comes before it, a reply is an error, never a shorter list. */
  lemma TruncatedIsRefused(before: seq<Node>, root: Node, k: nat)
    requires ContentOnly(before) && root.Element? && ContentOnly([root]) && 0 < k < |SerializeNode(root)|
    ensures Reading(Serialize(before) + SerializeNode(root)[..k]).Err?
  {
    hide Serialize, SerializeNode, ContentOnly;
    InterpretConcat(Serialize(before), SerializeNode(root)[..k], Initial);
    var start := Interpret(Serialize(before), Initial);
    if start.Ok? {
      StacksStayLevel(Serialize(before), Initial);
      PrefixOfNode(root, start.value, k);
    }
  }

  /** What may stand around the root element: declarations, comments, text that belongs to nothing. */
  predicate Misc(forest: seq<Node>) {
    forall i :: 0 <= i < |forest| ==> forest[i].Content? && IsContent(forest[i].event)
  }

  /** Outside any element content changes nothing, and each piece of it is one event. */
  lemma {:induction false} MiscChangesNothing(forest: seq<Node>, st: State, k: nat)
    requires Misc(forest) && st.stack == [] && st.texts == [] && k <= |forest|
    ensures |Serialize(forest)| == |forest| && Interpret(Serialize(forest)[..k], st) == Ok(st)
    decreases |forest|
  {
    if forest != [] {
      var events := Serialize(forest);
      assert forest[0].Content? && SerializeNode(forest[0]) == [forest[0].event];
      MiscChangesNothing(forest[1..], st, if k > 0 then k - 1 else 0);
      if k > 0 {
        assert events[..k] == [forest[0].event] + Serialize(forest[1..])[..k - 1];
        InterpretOne(forest[0].event, Serialize(forest[1..])[..k - 1], st);
        assert Step(st, forest[0].event) == Ok(st);
      }
    }
  }

  /** The events of a whole reply. */
  function ReplyEvents(before: seq<Node>, root: Node, after: seq<Node>): seq<Event> {
    Serialize(before) + (SerializeNode(root) + Serialize(after))
  }

  /**
   A reply cut off is refused exactly when the cut is inside its root element. Cut before that,
   it reads as a reply with no responses; after it, as the whole reply.
   */
  lemma CutIsRefusedInsideTheRoot(before: seq<Node>, root: Node, after: seq<Node>, k: nat)
    requires Misc(before) && Misc(after) && root.Element? && ReadableNode(root, false)
    requires k <= |ReplyEvents(before, root, after)|
    ensures |Serialize(before)| == |before|
    ensures var cut := Reading(ReplyEvents(before, root, after)[..k]);
      if k <= |before| then cut == Ok([])
      else if k < |before| + |SerializeNode(root)| then cut.Err?
      else cut == Ok(Records([root], []))
  {
    hide Serialize, SerializeNode, Records, ContentOnly, Interpret, Misc, ReadableNode, Readable;
    var all, inside, tail := ReplyEvents(before, root, after), SerializeNode(root), Serialize(after);
    MiscChangesNothing(before, Initial, |before|);
    var lead := Serialize(before);
    if k <= |before| {
      MiscChangesNothing(before, Initial, k);
      assert all[..k] == lead[..k];
    } else if k < |before| + |inside| {
      assert all[..k] == lead + inside[..k - |before|];
      MiscIsContentOnly(before);
      ReadableIsContentOnly(root);
      TruncatedIsRefused(before, root, k - |before|);
    } else {
      var j := k - |before| - |inside|;
      MiscChangesNothing(after, Initial, 0);
      assert all[..k] == lead[..|before|] + (inside + tail[..j]);
      InterpretConcat(lead[..|before|], inside + tail[..j], Initial);
      InterpretConcat(inside, tail[..j], Initial);
      var end := RootReads(root);
      MiscChangesNothing(after, end, j);
    }
  }

  lemma RootReads(root: Node) returns (end: State)
    requires root.Element? && ReadableNode(root, false)
    ensures Interpret(SerializeNode(root), Initial) == Ok(end)
    ensures end.stack == [] && end.texts == [] && end.current.None? && end.responses == Records([root], [])
  {
    assert [root][1..] == [];
    assert Serialize([root]) == SerializeNode(root);
    end := WalkForest([root], Initial, [], []);
    assert [] + Records([root], []) == Records([root], []);
  }

  lemma {:induction false} MiscIsContentOnly(forest: seq<Node>)
    requires Misc(forest)
    ensures ContentOnly(forest)
  {
    if forest != [] {
      MiscIsContentOnly(forest[1..]);
    }
  }

  lemma {:induction false} ReadableIsContentOnly(node: Node)
    requires ReadableNode(node, false) || ReadableNode(node, true)
    ensures ContentOnly([node])
    decreases node
  {
    assert [node][1..] == [];
    if node.Element? {
      ReadableForestIsContentOnly(node.children);
    }
  }

  lemma {:induction false} ReadableForestIsContentOnly(forest: seq<Node>)
    requires Readable(forest, true)
    ensures ContentOnly(forest)
    decreases forest
  {
    if forest != [] {
      if forest[0].Element? {
        ReadableForestIsContentOnly(forest[0].children);
      }
      ReadableForestIsContentOnly(forest[1..]);
    }
  }

  /** Every closing tag closes the innermost open element, as the XML reader checks. */
  predicate Matched(events: seq<Event>, open: seq<string>) {
    events == [] ||
    match events[0]
    case Start(name) => Matched(events[1..], open + [Local(name)])
    case End(name) =>
      open != [] && Last(open) == Local(name) && Matched(events[1..], DropLast(open))
    case _ => Matched(events[1..], open)
  }

  lemma {:induction false} OpenResponseIsOnTheStack(events: seq<Event>, st: State)
    requires Matched(events, st.stack) && Interpret(events, st).Ok?
    requires st.current.Some? ==> "response" in st.stack
    ensures var end := Interpret(events, st).value; end.current.Some? ==> "response" in end.stack
  {
    if events != [] {
      var next := Step(st, events[0]).value;
      if events[0].End? && next.current.Some? {
        assert st.stack == DropLast(st.stack) + [Last(st.stack)];
      }
      OpenResponseIsOnTheStack(events[1..], next);
    }
  }

  /** On tags that match, the reply is refused as cut short exactly when an element is open. */
  lemma CutShortExactlyWhenUnclosed(events: seq<Event>)
    requires Matched(events, []) && Interpret(events, Initial).Ok?
    ensures var end := Interpret(events, Initial).value;
      Reading(events) == if end.stack == [] then Ok(end.responses) else Err(EndedEarly(|end.stack|))
  {
    OpenResponseIsOnTheStack(events, Initial);
  }
}
