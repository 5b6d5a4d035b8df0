/** What the two `.sou` parsers (sou_parser.py and app/sou_parser_new.py)
    share: the element records the XML library hands them, the symbol records
    they yield, extract_class_name and parse_metadata. */
module SouModel {
  import opened Optional
  import opened Text

  /** SymbolType.TYPE and SymbolType.METHOD. */
  datatype SymbolType = TypeSymbol | MethodSymbol

  /** A yielded record without its random uuid. */
  datatype Symbol = Symbol(name: string, symbolType: SymbolType, body: string, comment: string)

  /** A `<body>` child of `<methods>`: its `selector` attribute and its text. */
  datatype MethodBody = MethodBody(selector: Option<string>, text: Option<string>)

  /** An element as the parsers query it: its tag, `findtext` of its `name`,
      `class-id` and `body` children (None when the child is missing), its
      `<body>` children in document order, and the serialisation of its
      children, concatenated. */
  datatype Element = Element(
    tag: string,
    name: Option<string>,
    classId: Option<string>,
    bodyText: Option<string>,
    bodies: seq<MethodBody>,
    innerXml: string)

  /** The three tags the parsers act on; every other tag is alike to them. */
  datatype Tag = ClassTag | CommentTag | MethodsTag | OtherTag

  /** `elem.tag == "class"`, `== "comment"`, `== "methods"`. */
  function TagOf(tag: string): Tag {
    if tag == "class" then ClassTag
    else if tag == "comment" then CommentTag
    else if tag == "methods" then MethodsTag
    else OtherTag
  }

  datatype EventKind = Start | End

  /** One item of `iterparse(path, events=("start", "end"))`. */
  datatype Event = Event(kind: EventKind, elem: Element)

  /** A parser driven by events of `kind` acts only on the events of that
      kind for `<class>`, `<comment>` and `<methods>` elements. */
  predicate Relevant(kind: EventKind, ev: Event) {
    ev.kind == kind && TagOf(ev.elem.tag) != OtherTag
  }

  /** The events such a parser acts on, in order. */
  function RelevantOnly(kind: EventKind, events: seq<Event>): (r: seq<Event>)
    ensures |r| <= |events|
    ensures forall ev :: ev in r <==> ev in events && Relevant(kind, ev)
    decreases |events|
  {
    if |events| == 0 then []
    else (if Relevant(kind, events[0]) then [events[0]] else []) + RelevantOnly(kind, events[1..])
  }

  /** A single event is kept exactly when it is relevant. */
  lemma RelevantOnlyOne(kind: EventKind, ev: Event)
    ensures RelevantOnly(kind, [ev]) == if Relevant(kind, ev) then [ev] else []
  {
    assert [ev][1..] == [];
  }

  /** Filtering distributes over concatenation. With RelevantOnlyOne this
      fixes the result: the relevant events, each once, in their order. */
  lemma {:induction false} RelevantOnlyAppend(kind: EventKind, a: seq<Event>, b: seq<Event>)
    ensures RelevantOnly(kind, a + b) == RelevantOnly(kind, a) + RelevantOnly(kind, b)
    decreases |a|
  {
    if |a| > 0 {
      assert (a + b)[1..] == a[1..] + b;
      RelevantOnlyAppend(kind, a[1..], b);
    } else {
      assert a + b == b;
    }
  }

  /** The uncaught exceptions that end a parse: AttributeError from
      extract_class_name(None) on a missing `<name>` or `<class-id>`, and
      UnboundLocalError when the old parser needs a class name it never set. */
  datatype ParseError = NameMissing | ClassIdMissing | ClassNameUnbound

  /** The records a parse yields before it ends, and the exception that ended
      it, if any. */
  datatype Outcome = Outcome(records: seq<Symbol>, error: Option<ParseError>)

  /** `full_name.split(".")[-1]`. */
  function ExtractClassName(fullName: string): (r: string)
    ensures '.' !in r
    ensures EndsWith(fullName, r)
    ensures |r| == |fullName| || fullName[|fullName| - |r| - 1] == '.'
    ensures '.' !in fullName ==> r == fullName
  {
    var parts := Split(fullName, '.');
    JoinLast(parts, '.');
    parts[|parts| - 1]
  }

  /** The last piece ends the joined text, right after a separator. */
  lemma JoinLast(parts: seq<string>, sep: char)
    requires |parts| >= 1
    ensures var s := Join(parts, sep);
            var r := parts[|parts| - 1];
            && EndsWith(s, r)
            && (|r| == |s| || s[|s| - |r| - 1] == sep)
  {
    var s := Join(parts, sep);
    var r := parts[|parts| - 1];
    if |parts| > 1 {
      var head := Join(parts[..|parts| - 1], sep) + [sep];
      assert s == head + r;
      assert s[|s| - |r|..] == r;
      assert s[|s| - |r| - 1] == head[|head| - 1];
    }
  }

  /** Shortening twice is shortening once. */
  lemma ExtractClassNameIdempotent(fullName: string)
    ensures ExtractClassName(ExtractClassName(fullName)) == ExtractClassName(fullName)
  {
  }

  /** `f"{x}"` of a selector: a missing attribute prints as None. */
  function SelectorText(selector: Option<string>): string {
    match selector
    case None => "None"
    case Some(s) => s
  }

  /** The TYPE record a `<class>` element starts, with an empty comment. */
  function ClassRecord(name: string, innerXml: string): (r: Symbol)
    ensures r.symbolType == TypeSymbol && r.comment == ""
    ensures '.' !in r.name && EndsWith(name, r.name)
    ensures r.name == ExtractClassName(name) && r.body == Strip(innerXml)
  {
    Symbol(ExtractClassName(name), TypeSymbol, Strip(innerXml), "")
  }

  /** The METHOD record of one `<body>`: `<class>.<selector>`, the stripped
      text (`body.text or ""`), an empty comment. */
  function MethodRecord(className: string, b: MethodBody): Symbol {
    Symbol(className + "." + SelectorText(b.selector), MethodSymbol, Strip(b.text.GetOr("")), "")
  }

  /** A METHOD record's name is the class name, a dot and the selector. */
  lemma MethodRecordName(className: string, b: MethodBody)
    ensures var r := MethodRecord(className, b);
            && r.symbolType == MethodSymbol && r.comment == ""
            && StartsWith(r.name, className + ".") && EndsWith(r.name, SelectorText(b.selector))
            && |r.name| == |className| + 1 + |SelectorText(b.selector)|
            && r.body == Strip(b.text.GetOr(""))
  {
    var r := MethodRecord(className, b);
    assert r.name[..|className + "."|] == className + ".";
  }

  /** One METHOD record per `<body>`, in document order. */
  function MethodRecords(className: string, bodies: seq<MethodBody>): (r: seq<Symbol>)
    ensures |r| == |bodies|
    ensures forall k :: 0 <= k < |r| ==> r[k] == MethodRecord(className, bodies[k])
  {
    seq(|bodies|, k requires 0 <= k < |bodies| => MethodRecord(className, bodies[k]))
  }

  /** The comment of a `<comment>` element is merged into the pending class
      only when the last component of its class-id ends with the class name
      (`findtext` defaults to "" for both children here). */
  function MergeComment(pending: Symbol, e: Element): (r: Symbol)
    ensures r.name == pending.name && r.symbolType == pending.symbolType && r.body == pending.body
    ensures EndsWith(ExtractClassName(e.classId.GetOr("")), pending.name) ==> r.comment == Strip(e.bodyText.GetOr(""))
    ensures !EndsWith(ExtractClassName(e.classId.GetOr("")), pending.name) ==> r == pending
  {
    if EndsWith(ExtractClassName(e.classId.GetOr("")), pending.name) then
      pending.(comment := Strip(e.bodyText.GetOr("")))
    else pending
  }

  /** The number of records of one type. */
  function CountOf(records: seq<Symbol>, t: SymbolType): (n: nat)
    ensures n <= |records|
  {
    if |records| == 0 then 0
    else CountOf(records[..|records| - 1], t) + (if records[|records| - 1].symbolType == t then 1 else 0)
  }

  lemma {:induction false} CountOfAppend(a: seq<Symbol>, b: seq<Symbol>, t: SymbolType)
    ensures CountOf(a + b, t) == CountOf(a, t) + CountOf(b, t)
    decreases |b|
  {
    if |b| > 0 {
      CountOfAppend(a, b[..|b| - 1], t);
      assert (a + b)[..|a + b| - 1] == a + b[..|b| - 1];
    } else {
      assert a + b == a;
    }
  }

  lemma {:induction false} MethodRecordsCount(className: string, bodies: seq<MethodBody>)
    ensures CountOf(MethodRecords(className, bodies), MethodSymbol) == |bodies|
    ensures CountOf(MethodRecords(className, bodies), TypeSymbol) == 0
    decreases |bodies|
  {
    if |bodies| > 0 {
      var init := bodies[..|bodies| - 1];
      MethodRecordsCount(className, init);
      assert MethodRecords(className, bodies)[..|bodies| - 1] == MethodRecords(className, init);
    }
  }

  /** The names one `<methods>` element adds in parse_metadata: the full
      class-id (not shortened) and the selector, when both are non-empty. */
  function ElementMetadata(e: Element): set<string> {
    if TagOf(e.tag) == MethodsTag && e.classId.Some? && |e.classId.value| > 0 then
      set b | b in e.bodies && b.selector.Some? && |b.selector.value| > 0 :: e.classId.value + "." + b.selector.value
    else {}
  }

  /** parse_metadata over the end events, in document order. */
  function Metadata(elems: seq<Element>): set<string> {
    if |elems| == 0 then {} else Metadata(elems[..|elems| - 1]) + ElementMetadata(elems[|elems| - 1])
  }

  /** The loops of parse_metadata, adding to `fqdn_set`. */
  method ParseMetadata(elems: seq<Element>) returns (fqdns: set<string>)
    ensures fqdns == Metadata(elems)
  {
    fqdns := {};
    for i := 0 to |elems|
      invariant fqdns == Metadata(elems[..i])
    {
      var e := elems[i];
      assert elems[..i + 1][..i] == elems[..i];
      if TagOf(e.tag) == MethodsTag {
        var className := e.classId;
        ghost var before := fqdns;
        for j := 0 to |e.bodies|
          invariant className.Some? && |className.value| > 0 ==>
                    fqdns == before + set b | b in e.bodies[..j] && b.selector.Some? && |b.selector.value| > 0
                                               :: className.value + "." + b.selector.value
          invariant !(className.Some? && |className.value| > 0) ==> fqdns == before
        {
          var selector := e.bodies[j].selector;
          if className.Some? && |className.value| > 0 && selector.Some? && |selector.value| > 0 {
            fqdns := fqdns + {className.value + "." + selector.value};
          }
          assert e.bodies[..j + 1] == e.bodies[..j] + [e.bodies[j]];
        }
        assert e.bodies[..|e.bodies|] == e.bodies;
      }
    }
    assert elems[..|elems|] == elems;
  }

  /** A name is collected iff some `<methods>` element has a non-empty
      class-id and a `<body>` with a non-empty selector that spell it. */
  lemma {:induction false} MetadataSpec(elems: seq<Element>, x: string)
    ensures x in Metadata(elems) <==>
            exists e, b :: e in elems && TagOf(e.tag) == MethodsTag && e.classId.Some? && |e.classId.value| > 0
                           && b in e.bodies && b.selector.Some? && |b.selector.value| > 0
                           && x == e.classId.value + "." + b.selector.value
    decreases |elems|
  {
    if |elems| > 0 {
      var init := elems[..|elems| - 1];
      var last := elems[|elems| - 1];
      MetadataSpec(init, x);
      assert elems == init + [last];
    }
  }

  /** Records appended in two steps are the records appended at once. */
  lemma AppendAssoc(a: seq<Symbol>, b: seq<Symbol>, c: seq<Symbol>)
    ensures a + b + c == a + (b + c)
  {
  }
}
