/**
 What the `multistatus` reader makes of written-out replies
 (crates/pond-adapters-caldav/src/xml.rs): with any prefixes or none, and with every element it
 knows.
 */
module MultistatusReplies {
  import opened Results
  import opened Text
  import opened Multistatus

  // ----- Prefixes -------------------------------------------------------------

  /** `long` is `short`, perhaps behind some prefix. */
  ghost predicate MayBePrefixed(short: string, long: string) {
    long == short || (':' !in short && exists p: string :: long == p + ":" + short)
  }

  ghost predicate SameButPrefix(a: Event, b: Event) {
    match a
    case Start(name) => b.Start? && MayBePrefixed(name, b.name)
    case End(name) => b.End? && MayBePrefixed(name, b.name)
    case SelfClosing(name) => b.SelfClosing? && MayBePrefixed(name, b.name)
    case _ => a == b
  }

  lemma SameLocal(short: string, long: string)
    requires MayBePrefixed(short, long)
    ensures Local(short) == Local(long)
  {
    hide Local;
    if long != short {
      var p: string :| long == p + ":" + short;
      LocalOfPrefixed(p, short);
      LocalOfPlain(short);
    }
  }

  lemma SameStep(st: State, a: Event, b: Event)
    requires SameButPrefix(a, b)
    ensures Step(st, a) == Step(st, b)
  {
    hide Local, CloseText, MayBePrefixed, AddText;
    if a.Start? || a.End? || a.SelfClosing? {
      SameLocal(a.name, b.name);
    }
  }

  lemma {:induction false} SameRun(a: seq<Event>, b: seq<Event>, st: State)
    requires |a| == |b| && forall i :: 0 <= i < |a| ==> SameButPrefix(a[i], b[i])
    ensures Interpret(a, st) == Interpret(b, st)
  {
    hide Step, SameButPrefix;
    if a != [] {
      SameStep(st, a[0], b[0]);
      if Step(st, a[0]).Ok? {
        SameRun(a[1..], b[1..], Step(st, a[0]).value);
      }
    }
  }

  /** Namespace prefixes make no difference to what is read, each name with its own or with none. */
  lemma PrefixesDoNotMatter(a: seq<Event>, b: seq<Event>)
    requires |a| == |b| && forall i :: 0 <= i < |a| ==> SameButPrefix(a[i], b[i])
    ensures Reading(a) == Reading(b)
  {
    SameRun(a, b, Initial);
  }

  // ----- A whole reply --------------------------------------------------------

  /**
   One calendar, as a server answers with everything the reader knows, and two elements it does
   not: one with text, and an empty one.
   */
  datatype Calendar = Calendar(
    href: string, name: string, types: seq<string>, tagName: string, tag: string, data: string,
    hopName: string, hop: string, otherName: string, other: string, empty: string)

  function Says(name: string, text: string): Node {
    Element(name, [Content(Chars(Some(text)))])
  }

  function EmptyElements(names: seq<string>): seq<Node> {
    if names == [] then [] else [Content(SelfClosing(names[0]))] + EmptyElements(names[1..])
  }

  function PropOf(c: Calendar): seq<Node> {
    OthersOf(c) + KnownOf(c)
  }

  function KnownOf(c: Calendar): seq<Node> {
    [Says("displayname", c.name)] + ([Element("resourcetype", EmptyElements(c.types))]
    + ([Says(c.tagName, c.tag)] + ([Says("calendar-data", c.data)]
    + ([Element(c.hopName, [Says("href", c.hop)])] + []))))
  }

  function OthersOf(c: Calendar): seq<Node> {
    [Says(c.otherName, c.other)] + ([Content(SelfClosing(c.empty))] + [])
  }

  function ResponseOf(c: Calendar): Node {
    Element("response", [Says("href", c.href)] + ([Element("propstat", [Element("prop", PropOf(c))])] + []))
  }

  function ResponsesOf(cs: seq<Calendar>): seq<Node> {
    if cs == [] then [] else [ResponseOf(cs[0])] + ResponsesOf(cs[1..])
  }

  /** The events of the reply. */
  function ReplyOf(cs: seq<Calendar>): seq<Event> {
    Serialize([Element("multistatus", ResponsesOf(cs))])
  }

  /** Texts without spaces at their ends, and names as the standards give them. */
  predicate Written(c: Calendar) {
    && Tight(c.href) && Tight(c.name) && Tight(c.tag) && Tight(c.data) && Tight(c.hop) && Tight(c.other)
    && PlainName(c.otherName)
    && c.otherName !in {"response", "href", "displayname", "getctag", "sync-token", "calendar-data"}
    && (c.tagName == "getctag" || c.tagName == "sync-token")
    && (c.hopName == "current-user-principal" || c.hopName == "calendar-home-set" || c.hopName == "owner")
    && forall i :: 0 <= i < |c.types| ==> ':' !in c.types[i]
  }

  function LowerAll(names: seq<string>): seq<string> {
    if names == [] then [] else [Lower(names[0])] + LowerAll(names[1..])
  }

  function AnswerOf(c: Calendar): Response {
    Response(c.href, LowerAll(c.types), Some(c.name), Some(c.data), Some(c.tag), Some(c.hop))
  }

  function AnswersOf(cs: seq<Calendar>): seq<Response> {
    if cs == [] then [] else [AnswerOf(cs[0])] + AnswersOf(cs[1..])
  }

  /** A name the standards give: no prefix, no capitals. */
  predicate PlainName(s: string) {
    ':' !in s && forall i :: 0 <= i < |s| ==> !('A' <= s[i] <= 'Z')
  }

  lemma LocalOfName(name: string)
    requires PlainName(name)
    ensures Local(name) == name
  {
    LocalOfPlain(name);
    LowerOfLower(name);
  }

  lemma KnownNames()
    ensures Local("multistatus") == "multistatus" && Local("response") == "response" && Local("href") == "href"
    ensures Local("propstat") == "propstat" && Local("prop") == "prop"
    ensures Local("displayname") == "displayname" && Local("resourcetype") == "resourcetype"
    ensures Local("getctag") == "getctag" && Local("sync-token") == "sync-token"
    ensures Local("calendar-data") == "calendar-data"
    ensures Local("current-user-principal") == "current-user-principal"
    ensures Local("calendar-home-set") == "calendar-home-set" && Local("owner") == "owner"
  {
    hide Local;
    OuterNames();
    InnerNames();
    HopNames();
  }

  lemma OuterNames()
    ensures Local("multistatus") == "multistatus" && Local("response") == "response" && Local("href") == "href"
    ensures Local("propstat") == "propstat" && Local("prop") == "prop"
  {
    hide Local;
    LocalOfName("multistatus");
    LocalOfName("response");
    LocalOfName("href");
    LocalOfName("propstat");
    LocalOfName("prop");
  }

  lemma InnerNames()
    ensures Local("displayname") == "displayname" && Local("resourcetype") == "resourcetype"
    ensures Local("getctag") == "getctag" && Local("sync-token") == "sync-token"
    ensures Local("calendar-data") == "calendar-data"
  {
    hide Local;
    LocalOfName("displayname");
    LocalOfName("resourcetype");
    LocalOfName("getctag");
    LocalOfName("sync-token");
    LocalOfName("calendar-data");
  }

  lemma HopNames()
    ensures Local("current-user-principal") == "current-user-principal"
    ensures Local("calendar-home-set") == "calendar-home-set" && Local("owner") == "owner"
  {
    hide Local;
    LocalOfName("current-user-principal");
    LocalOfName("calendar-home-set");
    LocalOfName("owner");
  }

  lemma Peel(node: Node, rest: seq<Node>, anc: seq<string>)
    ensures Properties([node] + rest, anc) == NodeProperties(node, anc) + Properties(rest, anc)
    ensures Types([node] + rest, anc) == NodeTypes(node, anc) + Types(rest, anc)
    ensures DirectText([node] + rest) == NodeText(node) + DirectText(rest)
    ensures HasResponse([node] + rest) == (NodeHasResponse(node) || HasResponse(rest))
    ensures Records([node] + rest, anc) == NodeRecords(node, anc) + Records(rest, anc)
    ensures Readable([node] + rest, true) == (ReadableNode(node, true) && Readable(rest, true))
  {
    assert ([node] + rest)[1..] == rest;
  }

  /** An element of nothing but text is one property. */
  lemma SaysOne(name: string, text: string, anc: seq<string>)
    requires Tight(text)
    ensures NodeProperties(Says(name, text), anc) == [Property(Local(name), text, Plain(anc))]
    ensures NodeTypes(Says(name, text), anc) == [] && NodeText(Says(name, text)) == ""
    ensures ReadableNode(Says(name, text), true)
    ensures Local(name) != "response" ==> !NodeHasResponse(Says(name, text))
  {
    hide Local, Plain, Trim;
    var piece := Content(Chars(Some(text)));
    assert [piece] == [piece] + [];
    Peel(piece, [], anc + [Local(name)]);
    assert text + "" == text;
    TrimOfTight(text);
  }

  /** An element without text of its own passes on what is in it. */
  lemma Passes(name: string, children: seq<Node>, anc: seq<string>)
    requires DirectText(children) == ""
    ensures NodeProperties(Element(name, children), anc) == Properties(children, anc + [Local(name)])
    ensures NodeTypes(Element(name, children), anc) == Types(children, anc + [Local(name)])
    ensures NodeText(Element(name, children)) == ""
    ensures ReadableNode(Element(name, children), true) == Readable(children, true)
  {
    hide Local, Properties, Types;
    assert Trim("") == "";
    var ps := Properties(children, anc + [Local(name)]);
    assert ps + [] == ps;
  }

  lemma {:induction false} TypesAreRead(names: seq<string>, anc: seq<string>)
    requires anc != [] && Last(anc) == "resourcetype"
    requires forall i :: 0 <= i < |names| ==> ':' !in names[i]
    ensures Types(EmptyElements(names), anc) == LowerAll(names)
    ensures Properties(EmptyElements(names), anc) == [] && DirectText(EmptyElements(names)) == ""
    ensures !HasResponse(EmptyElements(names)) && Readable(EmptyElements(names), true)
  {
    hide Local;
    if names != [] {
      var node := Content(SelfClosing(names[0]));
      Peel(node, EmptyElements(names[1..]), anc);
      LocalOfPlain(names[0]);
      TypesAreRead(names[1..], anc);
    }
  }

  /** The properties of `prop`, in the order they close. */
  function PropProperties(c: Calendar, plain: bool): seq<Property> {
    [Property(c.otherName, c.other, plain)] + KnownProperties(c, plain)
  }

  function KnownProperties(c: Calendar, plain: bool): seq<Property> {
    [Property("displayname", c.name, plain), Property(c.tagName, c.tag, plain),
     Property("calendar-data", c.data, plain), Property("href", c.hop, false)]
  }

  lemma HopIsNotPlain(anc: seq<string>, hopName: string)
    requires HoldsNextHop(hopName)
    ensures !Plain(anc + [hopName])
  {
    assert (anc + [hopName])[|anc|] == hopName;
  }

  lemma OthersAreRead(c: Calendar, anc: seq<string>, rest: seq<Node>)
    requires Written(c) && anc != [] && Last(anc) == "prop"
    ensures Properties(OthersOf(c) + rest, anc) == [Property(c.otherName, c.other, Plain(anc))] + Properties(rest, anc)
    ensures Types(OthersOf(c) + rest, anc) == Types(rest, anc)
    ensures DirectText(OthersOf(c) + rest) == DirectText(rest)
    ensures HasResponse(OthersOf(c) + rest) == HasResponse(rest)
    ensures Readable(OthersOf(c) + rest, true) == Readable(rest, true)
  {
    hide Local, Properties, Types, DirectText, HasResponse, Plain, Tight, Says, Readable;
    var said, empty := Says(c.otherName, c.other), Content(SelfClosing(c.empty));
    assert OthersOf(c) + rest == [said] + ([empty] + rest);
    LocalOfName(c.otherName);
    SaysOne(c.otherName, c.other, anc);
    EmptySaysNothing(c.empty, anc);
    Peel(empty, rest, anc);
    Peel(said, [empty] + rest, anc);
    assert [] + Properties(rest, anc) == Properties(rest, anc);
    assert [] + Types(rest, anc) == Types(rest, anc);
    assert "" + DirectText(rest) == DirectText(rest);
  }

  /** An empty element outside of `resourcetype` is nothing to the reader. */
  lemma EmptySaysNothing(name: string, anc: seq<string>)
    requires anc != [] && Last(anc) != "resourcetype"
    ensures var empty := Content(SelfClosing(name));
      && NodeProperties(empty, anc) == [] && NodeTypes(empty, anc) == [] && NodeText(empty) == ""
      && !NodeHasResponse(empty) && ReadableNode(empty, true)
  {
  }

  lemma PropIsRead(c: Calendar, anc: seq<string>)
    requires Written(c) && anc != [] && Last(anc) == "prop"
    ensures Properties(PropOf(c), anc) == PropProperties(c, Plain(anc))
    ensures Types(PropOf(c), anc) == LowerAll(c.types)
    ensures DirectText(PropOf(c)) == "" && !HasResponse(PropOf(c)) && Readable(PropOf(c), true)
  {
    hide Properties, Types, DirectText, HasResponse, Readable, Plain, Written, OthersOf, KnownOf, LowerAll;
    KnownIsRead(c, anc);
    OthersAreRead(c, anc, KnownOf(c));
  }

  lemma KnownIsRead(c: Calendar, anc: seq<string>)
    requires Written(c)
    ensures Properties(KnownOf(c), anc) == KnownProperties(c, Plain(anc))
    ensures Types(KnownOf(c), anc) == LowerAll(c.types)
    ensures DirectText(KnownOf(c)) == "" && !HasResponse(KnownOf(c)) && Readable(KnownOf(c), true)
  {
    hide PlainName;
    hide Local, Properties, NodeProperties, Types, NodeTypes, DirectText, NodeText, HasResponse, NodeHasResponse;
    hide Plain, Tight, Records, NodeRecords, Readable, ReadableNode, LowerAll, EmptyElements, Says;
    KnownNames();
    var hop := Element(c.hopName, [Says("href", c.hop)]);
    var kinds := Element("resourcetype", EmptyElements(c.types));
    Peel(hop, [], anc);
    Peel(Says("calendar-data", c.data), [hop] + [], anc);
    Peel(Says(c.tagName, c.tag), [Says("calendar-data", c.data)] + ([hop] + []), anc);
    Peel(kinds, [Says(c.tagName, c.tag)] + ([Says("calendar-data", c.data)] + ([hop] + [])), anc);
    Peel(Says("displayname", c.name),
         [kinds] + ([Says(c.tagName, c.tag)] + ([Says("calendar-data", c.data)] + ([hop] + []))), anc);
    SaysOne("displayname", c.name, anc);
    SaysOne(c.tagName, c.tag, anc);
    SaysOne("calendar-data", c.data, anc);
    KindsAreRead(c, anc);
    HopIsRead(c, anc);
    NothingIsRead(anc);
  }

  lemma NothingIsRead(anc: seq<string>)
    ensures Properties([], anc) == [] && Types([], anc) == [] && DirectText([]) == ""
    ensures !HasResponse([]) && Readable([], true) && Records([], anc) == []
  {
  }

  lemma KindsAreRead(c: Calendar, anc: seq<string>)
    requires Written(c)
    ensures var kinds := Element("resourcetype", EmptyElements(c.types));
      && NodeProperties(kinds, anc) == [] && NodeTypes(kinds, anc) == LowerAll(c.types)
      && NodeText(kinds) == "" && !NodeHasResponse(kinds) && ReadableNode(kinds, true)
  {
    hide Local, Properties, Types, DirectText, HasResponse, EmptyElements, LowerAll, Tight, Readable;
    KnownNames();
    TypesAreRead(c.types, anc + ["resourcetype"]);
    Passes("resourcetype", EmptyElements(c.types), anc);
  }

  lemma HopIsRead(c: Calendar, anc: seq<string>)
    requires Written(c)
    ensures var hop := Element(c.hopName, [Says("href", c.hop)]);
      && NodeProperties(hop, anc) == [Property("href", c.hop, false)] && NodeTypes(hop, anc) == []
      && NodeText(hop) == "" && !NodeHasResponse(hop) && ReadableNode(hop, true)
  {
    hide Local, Properties, Types, DirectText, HasResponse, Tight, Plain, Says, Readable;
    KnownNames();
    var inner := anc + [c.hopName];
    assert [Says("href", c.hop)] == [Says("href", c.hop)] + [];
    Peel(Says("href", c.hop), [], inner);
    NothingIsRead(inner);
    SaysOne("href", c.hop, inner);
    HopIsNotPlain(anc, c.hopName);
    Passes(c.hopName, [Says("href", c.hop)], anc);
  }

  lemma PropstatIsRead(c: Calendar, anc: seq<string>)
    requires Written(c)
    ensures var propstat := Element("propstat", [Element("prop", PropOf(c))]);
      && NodeProperties(propstat, anc) == PropProperties(c, Plain(anc))
      && NodeTypes(propstat, anc) == LowerAll(c.types)
      && NodeText(propstat) == "" && !NodeHasResponse(propstat) && ReadableNode(propstat, true)
  {
    hide Local, Properties, Types, DirectText, HasResponse, PropOf, Tight, Plain, LowerAll, Readable;
    KnownNames();
    var inner, inmost := anc + ["propstat"], anc + ["propstat"] + ["prop"];
    PropIsRead(c, inmost);
    Passes("prop", PropOf(c), inner);
    assert [Element("prop", PropOf(c))] == [Element("prop", PropOf(c))] + [];
    Peel(Element("prop", PropOf(c)), [], inner);
    NothingIsRead(inner);
    Passes("propstat", [Element("prop", PropOf(c))], anc);
    StillPlain(anc);
  }

  lemma StillPlain(anc: seq<string>)
    ensures Plain(anc + ["propstat"] + ["prop"]) == Plain(anc)
  {
    var longer := anc + ["propstat"] + ["prop"];
    assert longer[|anc|] == "propstat" && longer[|anc| + 1] == "prop";
    assert forall i :: 0 <= i < |anc| ==> longer[i] == anc[i];
  }

  lemma ResponseIsRead(c: Calendar)
    requires Written(c)
    ensures NodeRecords(ResponseOf(c), ["multistatus"]) == [AnswerOf(c)]
    ensures ReadableNode(ResponseOf(c), true)
  {
    hide Local, Properties, Types, DirectText, HasResponse, PropOf, Tight, LowerAll, Says, Readable, Plain, Summary;
    hide NodeProperties, NodeTypes, NodeText, NodeHasResponse, PropProperties;
    KnownNames();
    var anc := ["multistatus"] + ["response"];
    var propstat := Element("propstat", [Element("prop", PropOf(c))]);
    assert ResponseOf(c) == Element("response", [Says("href", c.href)] + ([propstat] + []));
    Peel(propstat, [], anc);
    Peel(Says("href", c.href), [propstat] + [], anc);
    NothingIsRead(anc);
    SaysOne("href", c.href, anc);
    PropstatIsRead(c, anc);
    OuterIsPlain();
    assert PropProperties(c, true) + [] == PropProperties(c, true);
    assert LowerAll(c.types) + [] == LowerAll(c.types) && [] + LowerAll(c.types) == LowerAll(c.types);
    SummaryIs(c);
  }

  lemma OuterIsPlain()
    ensures Plain(["multistatus"] + ["response"])
  {
  }

  lemma SummaryIs(c: Calendar)
    requires Written(c)
    ensures Summary([Property("href", c.href, true)] + PropProperties(c, true), LowerAll(c.types)) == AnswerOf(c)
  {
    hide Tight, LowerAll, LastText, Hrefs, FirstPlain, HrefOf, NestedOf;
    var p0, p1 := Property("href", c.href, true), Property("displayname", c.name, true);
    var p2, p3 := Property(c.tagName, c.tag, true), Property("calendar-data", c.data, true);
    var p4, other := Property("href", c.hop, false), Property(c.otherName, c.other, true);
    assert [p0] + PropProperties(c, true) == [p0, other, p1, p2, p3, p4];
    LastOfSix(p0, other, p1, p2, p3, p4, {"displayname"});
    LastOfSix(p0, other, p1, p2, p3, p4, {"calendar-data"});
    LastOfSix(p0, other, p1, p2, p3, p4, {"getctag", "sync-token"});
    HrefsOfSix(p0, other, p1, p2, p3, p4);
    TwoHrefs(p0, p4);
  }

  lemma LastOfSix(
    p0: Property, p1: Property, p2: Property, p3: Property, p4: Property, p5: Property, names: set<string>)
    ensures LastText([p0, p1, p2, p3, p4, p5], names) ==
      if p5.name in names then Some(p5.text)
      else if p4.name in names then Some(p4.text) else if p3.name in names then Some(p3.text)
      else if p2.name in names then Some(p2.text) else if p1.name in names then Some(p1.text)
      else if p0.name in names then Some(p0.text) else None
  {
    hide LastText;
    assert [p0, p1, p2, p3, p4, p5] == [] + [p0] + [p1] + [p2] + [p3] + [p4] + [p5];
    LastTextOfLonger([] + [p0] + [p1] + [p2] + [p3] + [p4], p5, names);
    LastTextOfLonger([] + [p0] + [p1] + [p2] + [p3], p4, names);
    LastTextOfLonger([] + [p0] + [p1] + [p2], p3, names);
    LastTextOfLonger([] + [p0] + [p1], p2, names);
    LastTextOfLonger([] + [p0], p1, names);
    LastTextOfLonger([], p0, names);
    LastTextOfNone(names);
  }

  lemma HrefsOfSix(p0: Property, p1: Property, p2: Property, p3: Property, p4: Property, p5: Property)
    requires p0.name == "href" && p1.name != "href" && p2.name != "href" && p3.name != "href"
    requires p4.name != "href" && p5.name == "href"
    ensures Hrefs([p0, p1, p2, p3, p4, p5]) == [p0] + [p5]
  {
    hide Hrefs;
    assert [p0, p1, p2, p3, p4, p5] == [] + [p0] + [p1] + [p2] + [p3] + [p4] + [p5];
    HrefsOfLonger([] + [p0] + [p1] + [p2] + [p3] + [p4], p5);
    HrefsOfLonger([] + [p0] + [p1] + [p2] + [p3], p4);
    HrefsOfLonger([] + [p0] + [p1] + [p2], p3);
    HrefsOfLonger([] + [p0] + [p1], p2);
    HrefsOfLonger([] + [p0], p1);
    HrefsOfLonger([], p0);
    HrefsOfNone();
  }

  lemma LastTextOfNone(names: set<string>)
    ensures LastText([], names) == None
  {
  }

  lemma HrefsOfNone()
    ensures Hrefs([]) == []
  {
  }

  lemma TwoHrefs(a: Property, b: Property)
    requires a.plain
    ensures HrefOf([a] + [b]) == a.text && NestedOf([a] + [b]) == Some(b.text)
  {
  }

  lemma {:induction false} ResponsesAreRead(cs: seq<Calendar>)
    requires forall i :: 0 <= i < |cs| ==> Written(cs[i])
    ensures Records(ResponsesOf(cs), ["multistatus"]) == AnswersOf(cs)
    ensures Readable(ResponsesOf(cs), true)
  {
    hide ResponseOf, Written, Records, NodeRecords, Readable, ReadableNode;
    if cs == [] {
      NothingIsRead(["multistatus"]);
    } else {
      Peel(ResponseOf(cs[0]), ResponsesOf(cs[1..]), ["multistatus"]);
      ResponseIsRead(cs[0]);
      ResponsesAreRead(cs[1..]);
    }
  }

  /**
   A reply about any calendars reads as exactly these: href, types, name, data, tag and next hop,
   each where the reader puts it.
   */
  lemma ReplyIsRead(cs: seq<Calendar>)
    requires forall i :: 0 <= i < |cs| ==> Written(cs[i])
    ensures Reading(ReplyOf(cs)) == Ok(AnswersOf(cs))
  {
    hide Written, ResponsesOf, AnswersOf, Serialize, Reading, Records, Readable;
    KnownNames();
    ResponsesAreRead(cs);
    RootIsRead(ResponsesOf(cs));
    ReadingIsTheWalk([Element("multistatus", ResponsesOf(cs))]);
  }

  lemma RootIsRead(children: seq<Node>)
    requires Readable(children, true)
    ensures Records([Element("multistatus", children)], []) == Records(children, ["multistatus"])
    ensures Readable([Element("multistatus", children)], false)
  {
    hide Local, HasResponse;
    OuterNames();
    var root := Element("multistatus", children);
    var outside: seq<string> := [];
    assert [root][1..] == [] && outside + ["multistatus"] == ["multistatus"];
    assert NodeRecords(root, []) == Records(children, ["multistatus"]);
    assert Records([root], []) == Records(children, ["multistatus"]) + [];
  }

  // ----- Which of several counts ----------------------------------------------

  /** Of the properties with one of the names the last one counts. */
  lemma {:induction false} LastOneCounts(ps: seq<Property>, names: set<string>) returns (i: int)
    ensures -1 <= i < |ps| && forall j :: i < j < |ps| ==> ps[j].name !in names
    ensures i < 0 ==> LastText(ps, names) == None
    ensures i >= 0 ==> ps[i].name in names && LastText(ps, names) == Some(ps[i].text)
  {
    i := -1;
    if ps != [] {
      var n := |ps| - 1;
      if ps[n].name in names {
        i := n;
      } else {
        i := LastOneCounts(ps[..n], names);
      }
    }
  }

  ghost predicate IsPlainHref(p: Property) {
    p.name == "href" && p.plain
  }

  /** `f` is the index of the first plain href, or -1. */
  ghost predicate FirstIs(ps: seq<Property>, f: int) {
    && -1 <= f < |ps| && (f >= 0 ==> IsPlainHref(ps[f]))
    && forall j :: 0 <= j < (if f >= 0 then f else |ps|) ==> !IsPlainHref(ps[j])
  }

  /** `n` is the index of the first href other than `f`, or -1. */
  ghost predicate NextIs(ps: seq<Property>, f: int, n: int) {
    && -1 <= n < |ps| && (n >= 0 ==> ps[n].name == "href" && n != f)
    && forall j :: 0 <= j < (if n >= 0 then n else |ps|) && ps[j].name == "href" ==> j == f
  }

  lemma PicksGrow(hs: seq<Property>, p: Property)
    ensures (FirstPlain(hs + [p]) < |hs + [p]|) == (FirstPlain(hs) < |hs| || p.plain)
    ensures HrefOf(hs + [p]) == if FirstPlain(hs) < |hs| then HrefOf(hs) else if p.plain then p.text else ""
    ensures NestedOf(hs + [p]) ==
      if NestedOf(hs).Some? then NestedOf(hs)
      else if FirstPlain(hs) < |hs| || !p.plain then Some(p.text) else None
  {
    FirstPlainOfLonger(hs, p);
  }

  lemma IndexesGrow(front: seq<Property>, p: Property, f: int, n: int)
    requires FirstIs(front, f) && NextIs(front, f, n)
    ensures var f' := if f < 0 && IsPlainHref(p) then |front| else f;
      && FirstIs(front + [p], f')
      && NextIs(front + [p], f', if n < 0 && p.name == "href" && f' != |front| then |front| else n)
  {
  }

  /** The href is the first plain one; the next hop is the first of all others. */
  lemma {:induction false} FirstHrefsCount(ps: seq<Property>) returns (f: int, n: int)
    ensures FirstIs(ps, f) && NextIs(ps, f, n)
    ensures HrefOf(Hrefs(ps)) == if f >= 0 then ps[f].text else ""
    ensures NestedOf(Hrefs(ps)) == if n >= 0 then Some(ps[n].text) else None
    ensures FirstPlain(Hrefs(ps)) < |Hrefs(ps)| <==> f >= 0
  {
    hide FirstIs, NextIs, HrefOf, NestedOf, FirstPlain;
    if ps == [] {
      f, n := NoneCounts();
    } else {
      var last := |ps| - 1;
      var front, p := ps[..last], ps[last];
      assert ps == front + [p];
      f, n := FirstHrefsCount(front);
      IndexesGrow(front, p, f, n);
      IndexesInside(front, f, n);
      HrefsOfLonger(front, p);
      if p.name == "href" {
        PicksGrow(Hrefs(front), p);
        if f < 0 && p.plain {
          f := last;
        } else if n < 0 {
          n := last;
        }
      }
    }
  }

  lemma IndexesInside(ps: seq<Property>, f: int, n: int)
    requires FirstIs(ps, f) && NextIs(ps, f, n)
    ensures f < |ps| && n < |ps|
  {
  }

  lemma NoneCounts() returns (f: int, n: int)
    ensures f == -1 && n == -1 && FirstIs([], f) && NextIs([], f, n)
    ensures HrefOf([]) == "" && NestedOf([]) == None && FirstPlain([]) == 0
  {
    f, n := -1, -1;
  }

  // ----- Text and its references ----------------------------------------------

  /** The text `a`, a reference, the text `b`, as the display name of the one response of a reply. */
  function NamedReply(a: string, r: Reference, b: string): seq<Node> {
    [Element("response", [Element("displayname",
      [Content(Chars(Some(a))), Content(Ref(r)), Content(Chars(Some(b)))])])]
  }

  /** What a reference stands for, as XML predefines it; None for nothing that is known. */
  function Means(r: Reference): Option<string> {
    match r
    case CharRef(c) => if c.Some? then Some([c.value]) else None
    case Entity(name) =>
      var names, texts := ["lt", "gt", "amp", "apos", "quot"], ["<", ">", "&", "'", "\""];
      if name == names[0] then Some(texts[0]) else if name == names[1] then Some(texts[1])
      else if name == names[2] then Some(texts[2]) else if name == names[3] then Some(texts[3])
      else if name == names[4] then Some(texts[4]) else None
  }

  /** A reference stands for its character within the text around it; an unknown one refuses the reply. */
  lemma ReferencesAreRead(a: string, r: Reference, b: string)
    requires Means(r).Some? ==> Tight(a + Means(r).value + b)
    ensures Reading(Serialize(NamedReply(a, r, b))) ==
      if Means(r).None? then Err(Unreadable)
      else Ok([Response("", [], Some(a + Means(r).value + b), None, None, None)])
  {
    hide Reading, Serialize, Local, Trim, Tight, Means;
    KnownNames();
    assert Resolve(r) == Means(r) by {
      SameMeaning(r);
    }
    var document := NamedReply(a, r, b);
    var pieces := [Content(Chars(Some(a))), Content(Ref(r)), Content(Chars(Some(b)))];
    PiecesAre(a, r, b);
    NamedIsContent(a, r, b);
    AcceptedExactlyWhenReadable(document);
    if Means(r).Some? {
      NamedIsRead(pieces, a + Means(r).value + b);
    }
  }

  lemma SameMeaning(r: Reference)
    ensures Resolve(r) == Means(r)
  {
  }

  lemma PiecesAre(a: string, r: Reference, b: string)
    ensures var pieces := [Content(Chars(Some(a))), Content(Ref(r)), Content(Chars(Some(b)))];
      && (Readable(pieces, true) <==> Resolve(r).Some?)
      && (Resolve(r).Some? ==> DirectText(pieces) == a + Resolve(r).value + b)
      && (forall anc :: Properties(pieces, anc) == [] && Types(pieces, anc) == [])
      && !HasResponse(pieces) && ContentOnly(pieces)
  {
    hide Resolve;
    var p0, p1, p2 := Content(Chars(Some(a))), Content(Ref(r)), Content(Chars(Some(b)));
    assert [p0, p1, p2] == [p0] + ([p1] + ([p2] + []));
    forall anc ensures Properties([p0, p1, p2], anc) == [] && Types([p0, p1, p2], anc) == [] {
      Peel(p2, [], anc);
      Peel(p1, [p2] + [], anc);
      Peel(p0, [p1] + ([p2] + []), anc);
    }
    Peel(p2, [], []);
    Peel(p1, [p2] + [], []);
    Peel(p0, [p1] + ([p2] + []), []);
    assert [p0, p1, p2][1..] == [p1, p2] && [p1, p2][1..] == [p2] && [p2][1..] == [];
    assert ContentOnly([]) && ContentOnly([p2]) && ContentOnly([p1, p2]) && ContentOnly([p0, p1, p2]);
    if Resolve(r).Some? {
      assert a + (Resolve(r).value + (b + "")) == a + Resolve(r).value + b;
    }
  }

  lemma NamedIsContent(a: string, r: Reference, b: string)
    ensures ContentOnly(NamedReply(a, r, b))
    ensures Readable(NamedReply(a, r, b), false) <==> Resolve(r).Some?
  {
    hide Resolve, Readable, ContentOnly;
    PiecesAre(a, r, b);
    var pieces := [Content(Chars(Some(a))), Content(Ref(r)), Content(Chars(Some(b)))];
    OneElement("displayname", pieces, true);
    OneElement("response", [Element("displayname", pieces)], false);
  }

  lemma OneElement(name: string, children: seq<Node>, inside: bool)
    ensures ContentOnly([Element(name, children)]) == ContentOnly(children)
    ensures Readable([Element(name, children)], inside) == Readable(children, true)
  {
    hide Resolve;
    assert [Element(name, children)][1..] == [];
  }

  /** Inside a `response`, an element of nothing but text is its one property. */
  lemma NamedIsRead(pieces: seq<Node>, text: string)
    requires DirectText(pieces) == text && Tight(text) && !HasResponse(pieces)
    requires forall anc :: Properties(pieces, anc) == [] && Types(pieces, anc) == []
    ensures Records([Element("response", [Element("displayname", pieces)])], [])
      == [Response("", [], Some(text), None, None, None)]
  {
    hide Local, DirectText, Tight, Trim, HasResponse, Properties, Types, Plain, Summary, NodeProperties, NodeTypes;
    hide NodeHasResponse, NodeText, Readable;
    KnownNames();
    var name := Element("displayname", pieces);
    var outside: seq<string> := [];
    var anc := outside + ["response"];
    assert [name] == [name] + [];
    Peel(name, [], anc);
    NothingIsRead(anc);
    NameIsRead(pieces, text, anc);
    OneProperty(text);
    assert [Element("response", [name])][1..] == [];
    var none: seq<Property> := [];
    assert [Property("displayname", text, true)] + none == [Property("displayname", text, true)];
  }

  lemma NameIsRead(pieces: seq<Node>, text: string, anc: seq<string>)
    requires DirectText(pieces) == text && Tight(text) && !HasResponse(pieces) && anc == ["response"]
    requires forall anc :: Properties(pieces, anc) == [] && Types(pieces, anc) == []
    ensures NodeProperties(Element("displayname", pieces), anc) == [Property("displayname", text, true)]
    ensures NodeTypes(Element("displayname", pieces), anc) == [] && !NodeHasResponse(Element("displayname", pieces))
  {
    hide Local, DirectText, HasResponse, Properties, Types, Trim;
    KnownNames();
    TrimOfTight(text);
    assert Plain(anc);
  }

  lemma OneProperty(text: string)
    ensures Summary([Property("displayname", text, true)], []) == Response("", [], Some(text), None, None, None)
  {
    var p := Property("displayname", text, true);
    var none: seq<Property> := [];
    assert none + [p] == [p];
    forall names: set<string> ensures LastText([p], names) == if "displayname" in names then Some(text) else None {
      LastTextOfLonger(none, p, names);
      LastTextOfNone(names);
    }
    HrefsOfLonger(none, p);
  }
}
