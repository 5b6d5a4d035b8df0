/** parse of app/sou_parser_new.py (lines 10-58): the same generator as
    sou_parser.py, driven by the start events of `<class>`, `<comment>` and
    `<methods>` elements instead of their end events. It keeps only the
    pending class record: no counters, and the class name of a `<methods>`
    element is never carried over from an earlier one. */
module SouParserNew {
  import opened Optional
  import opened Text
  import opened SouModel
  import SouParser

  /** What one event does: the pending record after it and the records it
      yields, or the exception it raises before yielding anything. */
  datatype Step = Next(pending: Option<Symbol>, emitted: seq<Symbol>) | Fail(error: ParseError)

  function StepOf(pending: Option<Symbol>, ev: Event): Step {
    var e := ev.elem;
    if ev.kind != Start then Next(pending, [])
    else match TagOf(e.tag)
      case ClassTag =>
        if e.name.None? then Fail(NameMissing)
        else Next(Some(ClassRecord(e.name.value, e.innerXml)), [])
      case CommentTag =>
        if pending.Some? then Next(None, [MergeComment(pending.value, e)])
        // As in the older parser, the trailing `elif pending_class` branch
        // can never be taken.
        else Next(pending, [])
      case MethodsTag =>
        // Nothing catches the AttributeError of a missing class-id.
        if e.classId.None? then Fail(ClassIdMissing)
        else Next(pending, MethodRecords(ExtractClassName(e.classId.value), e.bodies))
      case OtherTag => Next(pending, [])
  }

  /** The generator run from a pending record, with the pending record it
      stopped with. */
  datatype Run = Run(records: seq<Symbol>, error: Option<ParseError>, last: Option<Symbol>)

  function RunFrom(pending: Option<Symbol>, events: seq<Event>): Run
    decreases |events|
  {
    if |events| == 0 then Run([], None, pending)
    else match StepOf(pending, events[0])
      case Fail(err) => Run([], Some(err), pending)
      case Next(p, out) =>
        var rest := RunFrom(p, events[1..]);
        Run(out + rest.records, rest.error, rest.last)
  }

  function Parse(events: seq<Event>): Outcome {
    var r := RunFrom(None, events);
    Outcome(r.records, r.error)
  }

  /** One iteration of the generator's loop: the pending record after the
      event and what it yields, or the exception it raises. */
  method HandleEvent(pending: Option<Symbol>, ev: Event)
    returns (next: Option<Symbol>, out: seq<Symbol>, error: Option<ParseError>)
    ensures StepOf(pending, ev) == if error.Some? then Fail(error.value) else Next(next, out)
  {
    next, out, error := pending, [], None;
    var e := ev.elem;
    if ev.kind != Start {
      return;
    }
    var tag := TagOf(e.tag);
    if tag == ClassTag {
      if e.name.None? {
        error := Some(NameMissing);
        return;
      }
      next := Some(ClassRecord(e.name.value, e.innerXml));
    } else if tag == CommentTag && pending.Some? {
      out := [MergeComment(pending.value, e)];
      next := None;
    } else if tag == MethodsTag {
      if e.classId.None? {
        error := Some(ClassIdMissing);
        return;
      }
      out := EmitMethods(ExtractClassName(e.classId.value), e.bodies);
    }
  }

  /** The `for body in elem.findall("body")` loop: one METHOD record per body. */
  method EmitMethods(className: string, bodies: seq<MethodBody>) returns (out: seq<Symbol>)
    ensures out == MethodRecords(className, bodies)
  {
    out := [];
    for j := 0 to |bodies|
      invariant out == MethodRecords(className, bodies)[..j]
    {
      out := out + [MethodRecord(className, bodies[j])];
    }
    assert MethodRecords(className, bodies)[..|bodies|] == MethodRecords(className, bodies);
  }

  /** What the loop of ParseEvents keeps after `i` events. */
  ghost predicate Progress(events: seq<Event>, i: nat, pending: Option<Symbol>, records: seq<Symbol>) {
    && i <= |events|
    && var rest := RunFrom(pending, events[i..]);
       RunFrom(None, events) == Run(records + rest.records, rest.error, rest.last)
  }

  lemma Advance(events: seq<Event>, i: nat, pending: Option<Symbol>, records: seq<Symbol>,
                next: Option<Symbol>, out: seq<Symbol>)
    requires Progress(events, i, pending, records)
    requires i < |events| && StepOf(pending, events[i]) == Next(next, out)
    ensures Progress(events, i + 1, next, records + out)
  {
    assert events[i..][1..] == events[i + 1..];
    var rest := RunFrom(next, events[i + 1..]);
    assert RunFrom(pending, events[i..]) == Run(out + rest.records, rest.error, rest.last);
    AppendAssoc(records, out, rest.records);
  }

  lemma Stop(events: seq<Event>, i: nat, pending: Option<Symbol>, records: seq<Symbol>, err: ParseError)
    requires Progress(events, i, pending, records)
    requires i < |events| && StepOf(pending, events[i]) == Fail(err)
    ensures Parse(events) == Outcome(records, Some(err))
  {
    assert RunFrom(pending, events[i..]) == Run([], Some(err), pending);
    assert records + [] == records;
  }

  /** The generator as a loop: the records it yields in order, and the
      exception that stopped it. */
  method ParseEvents(events: seq<Event>) returns (records: seq<Symbol>, error: Option<ParseError>)
    ensures Outcome(records, error) == Parse(events)
  {
    var pending: Option<Symbol> := None;
    records, error := [], None;
    var i: nat := 0;
    assert events[i..] == events;
    while i < |events|
      invariant Progress(events, i, pending, records)
    {
      var next, out, err := HandleEvent(pending, events[i]);
      if err.Some? {
        Stop(events, i, pending, records, err.value);
        error := err;
        return;
      }
      Advance(events, i, pending, records, next, out);
      records := records + out;
      pending := next;
      i := i + 1;
    }
    assert events[i..] == [];
    assert records + [] == records;
  }

  /** End events and other tags change nothing: the run over the relevant
      events alone is the same run. */
  lemma {:induction false} IrrelevantEventsIgnored(pending: Option<Symbol>, events: seq<Event>)
    ensures RunFrom(pending, RelevantOnly(Start, events)) == RunFrom(pending, events)
    decreases |events|
  {
    if |events| > 0 {
      var ev := events[0];
      var tail := RelevantOnly(Start, events[1..]);
      if Relevant(Start, ev) {
        assert RelevantOnly(Start, events) == [ev] + tail;
        assert ([ev] + tail)[0] == ev && ([ev] + tail)[1..] == tail;
        match StepOf(pending, ev)
        case Fail(_) =>
        case Next(p, _) =>
          IrrelevantEventsIgnored(p, events[1..]);
      } else {
        assert RelevantOnly(Start, events) == tail;
        assert StepOf(pending, ev) == Next(pending, []);
        IrrelevantEventsIgnored(pending, events[1..]);
        assert [] + RunFrom(pending, events[1..]).records == RunFrom(pending, events[1..]).records;
      }
    }
  }

  /** A `<class>` start replaces the pending record without yielding it; a
      `<comment>` start with nothing pending yields nothing. */
  lemma PendingTransitions(pending: Option<Symbol>, e: Element)
    ensures TagOf(e.tag) == ClassTag && e.name.Some? ==>
            StepOf(pending, Event(Start, e)) == Next(Some(ClassRecord(e.name.value, e.innerXml)), [])
    ensures TagOf(e.tag) == CommentTag && pending.None? ==>
            StepOf(pending, Event(Start, e)) == Next(None, [])
    ensures TagOf(e.tag) == CommentTag && pending.Some? ==>
            StepOf(pending, Event(Start, e)) == Next(None, [MergeComment(pending.value, e)])
  {
  }

  /** The events of the given elements, all of one kind. */
  function Observed(kind: EventKind, elems: seq<Element>): (r: seq<Event>)
    ensures |r| == |elems|
    ensures forall k :: 0 <= k < |r| ==> r[k] == Event(kind, elems[k])
  {
    seq(|elems|, k requires 0 <= k < |elems| => Event(kind, elems[k]))
  }

  /** Every `<methods>` element names its class. */
  predicate ClassIdsPresent(elems: seq<Element>) {
    forall e :: e in elems && TagOf(e.tag) == MethodsTag ==> e.classId.Some?
  }

  /** On one element, the new parser's start step does what the old parser's
      end step does to the pending record and to the output. */
  lemma StepAgrees(s: SouParser.State, e: Element)
    requires TagOf(e.tag) == MethodsTag ==> e.classId.Some?
    ensures var older := SouParser.StepOf(s, Event(End, e));
            var newer := StepOf(s.pending, Event(Start, e));
            && (older.Fail? <==> newer.Fail?)
            && (older.Fail? ==> older.error == newer.error)
            && (older.Next? ==> older.state.pending == newer.pending && older.emitted == newer.emitted)
  {
  }

  /** When every `<methods>` element has a class-id, the new parser over the
      start events of a sequence of elements yields exactly what the old
      parser yields over their end events, and stops with the same error. */
  lemma {:induction false} AgreesWithOldParser(s: SouParser.State, elems: seq<Element>)
    requires ClassIdsPresent(elems)
    ensures var older := SouParser.RunFrom(s, Observed(End, elems));
            var newer := RunFrom(s.pending, Observed(Start, elems));
            older.records == newer.records && older.error == newer.error && older.last.pending == newer.last
    decreases |elems|
  {
    if |elems| > 0 {
      var e := elems[0];
      StepAgrees(s, e);
      assert Observed(End, elems)[1..] == Observed(End, elems[1..]);
      assert Observed(Start, elems)[1..] == Observed(Start, elems[1..]);
      match SouParser.StepOf(s, Event(End, e))
      case Fail(_) =>
      case Next(s', _) =>
        assert ClassIdsPresent(elems[1..]) by {
          forall x | x in elems[1..] ensures x in elems {
          }
        }
        AgreesWithOldParser(s', elems[1..]);
    }
  }

  /** The old and the new parser agree from the start of a parse. */
  lemma ParsersAgree(elems: seq<Element>)
    requires ClassIdsPresent(elems)
    ensures Parse(Observed(Start, elems)) == SouParser.Parse(Observed(End, elems))
  {
    AgreesWithOldParser(SouParser.Initial, elems);
  }

  /** Where the two parsers part: a `<methods>` element without a class-id
      stops the new parser, while the old one yields nothing for it when it
      has no bodies, or carries on with the class name of an earlier
      `<methods>` element. */
  lemma MissingClassIdDiffers(s: SouParser.State, e: Element)
    requires TagOf(e.tag) == MethodsTag && e.classId.None?
    ensures StepOf(s.pending, Event(Start, e)) == Fail(ClassIdMissing)
    ensures s.className.Some? ==>
            SouParser.StepOf(s, Event(End, e)).Next? &&
            SouParser.StepOf(s, Event(End, e)).emitted == MethodRecords(s.className.value, e.bodies)
    ensures s.className.None? ==>
            SouParser.StepOf(s, Event(End, e)) == if |e.bodies| == 0 then SouParser.Next(s, []) else SouParser.Fail(ClassNameUnbound)
  {
  }

  /** The agreement above is about sibling elements. When a `<comment>` sits
      inside its `<class>`, its events come between the class's start and
      end: the old parser meets the comment's end before the class's end and
      yields nothing, while the new parser has the class pending when the
      comment starts and yields it, merged. */
  lemma NestedCommentDiffers(cls: Element, comment: Element)
    requires TagOf(cls.tag) == ClassTag && cls.name.Some?
    requires TagOf(comment.tag) == CommentTag
    ensures var events := [Event(Start, cls), Event(Start, comment), Event(End, comment), Event(End, cls)];
            && SouParser.Parse(events) == Outcome([], None)
            && Parse(events) == Outcome([MergeComment(ClassRecord(cls.name.value, cls.innerXml), comment)], None)
  {
    var record := ClassRecord(cls.name.value, cls.innerXml);
    var events := [Event(Start, cls), Event(Start, comment), Event(End, comment), Event(End, cls)];
    var tail3 := [Event(End, cls)];
    var tail2 := [Event(End, comment)] + tail3;
    var tail1 := [Event(Start, comment)] + tail2;
    assert events == [Event(Start, cls)] + tail1;
    assert events[1..] == tail1 && tail1[1..] == tail2 && tail2[1..] == tail3 && tail3[1..] == [];

    var olderLast := SouParser.Initial.(pending := Some(record));
    assert SouParser.RunFrom(olderLast, []) == SouParser.Run([], None, olderLast);
    assert SouParser.RunFrom(SouParser.Initial, tail3) == SouParser.Run([], None, olderLast);
    SouParser.CommentWithoutPending(SouParser.Initial, comment);
    assert SouParser.RunFrom(SouParser.Initial, tail2) == SouParser.Run([], None, olderLast);
    assert SouParser.RunFrom(SouParser.Initial, tail1) == SouParser.Run([], None, olderLast);
    assert SouParser.RunFrom(SouParser.Initial, events) == SouParser.Run([], None, olderLast);

    var merged := MergeComment(record, comment);
    assert RunFrom(None, tail3) == Run([], None, None);
    assert RunFrom(None, tail2) == Run([], None, None);
    assert StepOf(Some(record), Event(Start, comment)) == Next(None, [merged]);
    assert RunFrom(Some(record), tail1) == Run([merged], None, None);
    assert RunFrom(None, events) == Run([merged], None, None);
  }
}
