/** parse of sou_parser.py (lines 9-68): a generator driven by the end
    events of `<class>`, `<comment>` and `<methods>` elements. It keeps one
    pending class record, the last class name a `<methods>` element gave,
    and two counters. */
module SouParser {
  import opened Optional
  import opened Text
  import opened SouModel

  /** The generator's local variables between two events. */
  datatype State = State(pending: Option<Symbol>, className: Option<string>, typesCount: nat, methodsCount: nat)

  const Initial := State(None, None, 0, 0)

  /** What one event does: the new state and the records it yields, or the
      exception it raises before yielding anything. */
  datatype Step = Next(state: State, emitted: seq<Symbol>) | Fail(error: ParseError)

  function StepOf(s: State, ev: Event): Step {
    var e := ev.elem;
    if ev.kind != End then Next(s, [])
    else match TagOf(e.tag)
      case ClassTag =>
        if e.name.None? then Fail(NameMissing)
        else Next(s.(pending := Some(ClassRecord(e.name.value, e.innerXml))), [])
      case CommentTag =>
        if s.pending.Some? then
          Next(s.(pending := None, typesCount := s.typesCount + 1), [MergeComment(s.pending.value, e)])
        else
          // The `elif pending_class` branch that follows can never be
          // taken, so a comment with no pending class yields nothing.
          Next(s, [])
      case MethodsTag =>
        // A missing class-id is caught, and the previous class name stays.
        var className := if e.classId.Some? then Some(ExtractClassName(e.classId.value)) else s.className;
        if className.None? then
          if |e.bodies| == 0 then Next(s, []) else Fail(ClassNameUnbound)
        else
          Next(s.(className := className, methodsCount := s.methodsCount + |e.bodies|),
               MethodRecords(className.value, e.bodies))
      case OtherTag => Next(s, [])
  }

  /** The generator run from state `s`, with the state it stopped in. */
  datatype Run = Run(records: seq<Symbol>, error: Option<ParseError>, last: State)

  function RunFrom(s: State, events: seq<Event>): Run
    decreases |events|
  {
    if |events| == 0 then Run([], None, s)
    else match StepOf(s, events[0])
      case Fail(err) => Run([], Some(err), s)
      case Next(s', out) =>
        var rest := RunFrom(s', events[1..]);
        Run(out + rest.records, rest.error, rest.last)
  }

  function Parse(events: seq<Event>): Outcome {
    var r := RunFrom(Initial, events);
    Outcome(r.records, r.error)
  }

  /** The pending record is always a TYPE record. */
  ghost predicate Valid(s: State) {
    s.pending.Some? ==> s.pending.value.symbolType == TypeSymbol
  }

  /** The counters count what a step yields, and the pending record stays a
      TYPE record. */
  lemma StepCounts(s: State, ev: Event)
    requires Valid(s)
    ensures StepOf(s, ev).Next? ==>
            && Valid(StepOf(s, ev).state)
            && StepOf(s, ev).state.typesCount == s.typesCount + CountOf(StepOf(s, ev).emitted, TypeSymbol)
            && StepOf(s, ev).state.methodsCount == s.methodsCount + CountOf(StepOf(s, ev).emitted, MethodSymbol)
  {
    var e := ev.elem;
    if ev.kind == End {
      match TagOf(e.tag)
      case ClassTag =>
      case CommentTag =>
        if s.pending.Some? {
          var m := MergeComment(s.pending.value, e);
          assert [m][..0] == [];
          assert CountOf([m], TypeSymbol) == 1 && CountOf([m], MethodSymbol) == 0;
        }
      case MethodsTag =>
        var className := if e.classId.Some? then Some(ExtractClassName(e.classId.value)) else s.className;
        if className.Some? {
          MethodRecordsCount(className.value, e.bodies);
        }
      case OtherTag =>
    }
  }

  /** types_count and methods_count always equal the numbers of TYPE and
      METHOD records yielded so far. */
  lemma {:induction false} RunCounts(s: State, events: seq<Event>)
    requires Valid(s)
    ensures var r := RunFrom(s, events);
            && r.last.typesCount == s.typesCount + CountOf(r.records, TypeSymbol)
            && r.last.methodsCount == s.methodsCount + CountOf(r.records, MethodSymbol)
    decreases |events|
  {
    if |events| > 0 {
      StepCounts(s, events[0]);
      match StepOf(s, events[0])
      case Fail(_) =>
      case Next(s', out) =>
        RunCounts(s', events[1..]);
        CountOfAppend(out, RunFrom(s', events[1..]).records, TypeSymbol);
        CountOfAppend(out, RunFrom(s', events[1..]).records, MethodSymbol);
    }
  }

  /** The `for body in elem.findall("body")` loop: one METHOD record per
      body, each counted. */
  method EmitMethods(s: State, className: string, bodies: seq<MethodBody>)
    returns (next: State, out: seq<Symbol>)
    ensures next == s.(className := Some(className), methodsCount := s.methodsCount + |bodies|)
    ensures out == MethodRecords(className, bodies)
  {
    next, out := s.(className := Some(className)), [];
    for j := 0 to |bodies|
      invariant out == MethodRecords(className, bodies)[..j]
      invariant next == s.(className := Some(className), methodsCount := s.methodsCount + j)
    {
      next := next.(methodsCount := next.methodsCount + 1);
      out := out + [MethodRecord(className, bodies[j])];
    }
    assert MethodRecords(className, bodies)[..|bodies|] == MethodRecords(className, bodies);
  }

  /** One iteration of the generator's loop: the state after the event and
      what it yields, or the exception it raises. */
  method HandleEvent(s: State, ev: Event) returns (next: State, out: seq<Symbol>, error: Option<ParseError>)
    ensures StepOf(s, ev) == if error.Some? then Fail(error.value) else Next(next, out)
  {
    next, out, error := s, [], None;
    var e := ev.elem;
    if ev.kind != End {
      return;
    }
    var tag := TagOf(e.tag);
    if tag == ClassTag {
      if e.name.None? {
        error := Some(NameMissing);
        return;
      }
      next := s.(pending := Some(ClassRecord(e.name.value, e.innerXml)));
    } else if tag == CommentTag && s.pending.Some? {
      var merged := MergeComment(s.pending.value, e);
      out := [merged];
      next := s.(pending := None, typesCount := s.typesCount + 1);
    } else if tag == MethodsTag {
      var className := if e.classId.Some? then Some(ExtractClassName(e.classId.value)) else s.className;
      if className.None? {
        if |e.bodies| > 0 {
          error := Some(ClassNameUnbound);
        }
        return;
      }
      next, out := EmitMethods(s, className.value, e.bodies);
    }
  }

  /** What the loop of ParseEvents keeps after `i` events: the records so far
      followed by what the rest of the run yields are the whole run, and the
      counters count the records so far. */
  ghost predicate Progress(events: seq<Event>, i: nat, state: State, records: seq<Symbol>) {
    && i <= |events|
    && Valid(state)
    && state.typesCount == CountOf(records, TypeSymbol)
    && state.methodsCount == CountOf(records, MethodSymbol)
    && var rest := RunFrom(state, events[i..]);
       RunFrom(Initial, events) == Run(records + rest.records, rest.error, rest.last)
  }

  /** An event that yields `out` moves the loop on by one event. */
  lemma Advance(events: seq<Event>, i: nat, state: State, records: seq<Symbol>, next: State, out: seq<Symbol>)
    requires Progress(events, i, state, records)
    requires i < |events| && StepOf(state, events[i]) == Next(next, out)
    ensures Progress(events, i + 1, next, records + out)
  {
    AdvanceRun(events, i, state, records, next, out);
    StepCounts(state, events[i]);
    CountOfAppend(records, out, TypeSymbol);
    CountOfAppend(records, out, MethodSymbol);
  }

  /** The whole run, split after event `i`, moves on by one event. */
  lemma AdvanceRun(events: seq<Event>, i: nat, state: State, records: seq<Symbol>, next: State, out: seq<Symbol>)
    requires i < |events| && StepOf(state, events[i]) == Next(next, out)
    requires var rest := RunFrom(state, events[i..]);
             RunFrom(Initial, events) == Run(records + rest.records, rest.error, rest.last)
    ensures var rest := RunFrom(next, events[i + 1..]);
            RunFrom(Initial, events) == Run(records + out + rest.records, rest.error, rest.last)
  {
    assert events[i..] == [events[i]] + events[i + 1..];
    RunCons(state, events[i], events[i + 1..], next, out);
    AppendAssoc(records, out, RunFrom(next, events[i + 1..]).records);
  }

  /** An event that raises ends the run with the records so far. */
  lemma Stop(events: seq<Event>, i: nat, state: State, records: seq<Symbol>, err: ParseError)
    requires Progress(events, i, state, records)
    requires i < |events| && StepOf(state, events[i]) == Fail(err)
    ensures Parse(events) == Outcome(records, Some(err))
  {
    assert RunFrom(state, events[i..]) == Run([], Some(err), state);
    assert records + [] == records;
  }

  /** Before the first event the loop has nothing and the whole run ahead. */
  lemma Start(events: seq<Event>)
    ensures Progress(events, 0, Initial, [])
  {
    assert events[0..] == events;
    var rest := RunFrom(Initial, events);
    assert [] + rest.records == rest.records;
  }

  /** After the last event the records so far are the whole run. */
  lemma Finish(events: seq<Event>, state: State, records: seq<Symbol>)
    requires Progress(events, |events|, state, records)
    ensures Parse(events) == Outcome(records, None)
  {
    assert events[|events|..] == [];
    assert records + [] == records;
  }

  /** The generator as a loop: the records it yields in order, the exception
      that stopped it, and its two counters at that point. */
  method ParseEvents(events: seq<Event>)
    returns (records: seq<Symbol>, error: Option<ParseError>, typesCount: nat, methodsCount: nat)
    ensures Outcome(records, error) == Parse(events)
    ensures typesCount == CountOf(records, TypeSymbol)
    ensures methodsCount == CountOf(records, MethodSymbol)
  {
    var state := Initial;
    records, error := [], None;
    var i: nat := 0;
    Start(events);
    while i < |events|
      invariant Progress(events, i, state, records)
    {
      var next, out, err := HandleEvent(state, events[i]);
      if err.Some? {
        Stop(events, i, state, records, err.value);
        error := err;
        typesCount, methodsCount := state.typesCount, state.methodsCount;
        return;
      }
      Advance(events, i, state, records, next, out);
      records := records + out;
      state := next;
      i := i + 1;
    }
    Finish(events, state, records);
    typesCount, methodsCount := state.typesCount, state.methodsCount;
  }

  /** Start events and other tags change nothing: the run over the relevant
      events alone is the same run. */
  lemma {:induction false} IrrelevantEventsIgnored(s: State, events: seq<Event>)
    ensures RunFrom(s, RelevantOnly(End, events)) == RunFrom(s, events)
    decreases |events|
  {
    if |events| > 0 {
      var ev := events[0];
      var tail := RelevantOnly(End, events[1..]);
      if Relevant(End, ev) {
        assert RelevantOnly(End, events) == [ev] + tail;
        assert ([ev] + tail)[0] == ev && ([ev] + tail)[1..] == tail;
        match StepOf(s, ev)
        case Fail(_) =>
        case Next(s', _) =>
          IrrelevantEventsIgnored(s', events[1..]);
      } else {
        assert RelevantOnly(End, events) == tail;
        assert StepOf(s, ev) == Next(s, []);
        IrrelevantEventsIgnored(s, events[1..]);
        assert [] + RunFrom(s, events[1..]).records == RunFrom(s, events[1..]).records;
      }
    }
  }

  /** The number of end events of `<comment>` elements. */
  function CommentEnds(events: seq<Event>): (n: nat)
    ensures n <= |events|
    decreases |events|
  {
    if |events| == 0 then 0
    else (if events[0].kind == End && TagOf(events[0].elem.tag) == CommentTag then 1 else 0) + CommentEnds(events[1..])
  }

  /** Every TYPE record is yielded by a `<comment>` element, one at most per
      comment: classes that no comment follows are never yielded. */
  lemma {:induction false} TypesAtMostComments(s: State, events: seq<Event>)
    ensures CountOf(RunFrom(s, events).records, TypeSymbol) <= CommentEnds(events)
    decreases |events|
  {
    if |events| > 0 {
      var ev := events[0];
      match StepOf(s, ev)
      case Fail(_) =>
      case Next(s', out) =>
        TypesAtMostComments(s', events[1..]);
        CountOfAppend(out, RunFrom(s', events[1..]).records, TypeSymbol);
        if ev.kind == End && TagOf(ev.elem.tag) == MethodsTag {
          var className := if ev.elem.classId.Some? then Some(ExtractClassName(ev.elem.classId.value)) else s.className;
          if className.Some? {
            MethodRecordsCount(className.value, ev.elem.bodies);
          }
        }
        assert CountOf(out, TypeSymbol) <= (if ev.kind == End && TagOf(ev.elem.tag) == CommentTag then 1 else 0) by {
          assert out == [] ==> CountOf(out, TypeSymbol) == 0;
          assert |out| == 1 ==> out[..0] == [];
        }
    }
  }

  /** Running from an event that yields `out`, then the rest. */
  lemma RunCons(s: State, ev: Event, tail: seq<Event>, next: State, out: seq<Symbol>)
    requires StepOf(s, ev) == Next(next, out)
    ensures var rest := RunFrom(next, tail);
            RunFrom(s, [ev] + tail) == Run(out + rest.records, rest.error, rest.last)
  {
    assert ([ev] + tail)[1..] == tail;
  }

  /** The end of a named `<class>` makes its record pending. */
  lemma ClassStep(s: State, e: Element)
    requires TagOf(e.tag) == ClassTag && e.name.Some?
    ensures StepOf(s, Event(End, e)) == Next(s.(pending := Some(ClassRecord(e.name.value, e.innerXml))), [])
  {
  }

  /** The end of a `<comment>` yields the pending record, merged. */
  lemma CommentStep(s: State, e: Element)
    requires TagOf(e.tag) == CommentTag && s.pending.Some?
    ensures StepOf(s, Event(End, e)) == Next(s.(pending := None, typesCount := s.typesCount + 1), [MergeComment(s.pending.value, e)])
  {
    var merged := MergeComment(s.pending.value, e);
    assert StepOf(s, Event(End, e)) == Next(s.(pending := None, typesCount := s.typesCount + 1), [merged]);
  }

  /** The end of a `<comment>` with nothing pending yields nothing and
      changes nothing: the trailing `elif pending_class` is never reached. */
  lemma CommentWithoutPending(s: State, e: Element)
    requires TagOf(e.tag) == CommentTag && s.pending.None?
    ensures StepOf(s, Event(End, e)) == Next(s, [])
  {
  }

  /** The end of a `<methods>` with a class-id yields its METHOD records. */
  lemma MethodsStep(s: State, e: Element)
    requires TagOf(e.tag) == MethodsTag && e.classId.Some?
    ensures var className := ExtractClassName(e.classId.value);
            StepOf(s, Event(End, e))
            == Next(s.(className := Some(className), methodsCount := s.methodsCount + |e.bodies|), MethodRecords(className, e.bodies))
  {
  }

  /** Three events that raise nothing: the run yields what each yields, in
      order. */
  lemma ThreeSteps(s0: State, e0: Event, e1: Event, e2: Event,
                   s1: State, s2: State, s3: State, o1: seq<Symbol>, o2: seq<Symbol>, o3: seq<Symbol>)
    requires StepOf(s0, e0) == Next(s1, o1)
    requires StepOf(s1, e1) == Next(s2, o2)
    requires StepOf(s2, e2) == Next(s3, o3)
    ensures RunFrom(s0, [e0, e1, e2]) == Run(o1 + (o2 + o3), None, s3)
  {
    var tail2: seq<Event> := [e2];
    var tail1: seq<Event> := [e1, e2];
    assert tail2 == [e2] + [] && tail1 == [e1] + tail2 && [e0, e1, e2] == [e0] + tail1;
    RunCons(s2, e2, [], s3, o3);
    assert RunFrom(s2, tail2) == Run(o3, None, s3) by {
      assert o3 + [] == o3;
    }
    RunCons(s1, e1, tail2, s2, o2);
    assert RunFrom(s1, tail1) == Run(o2 + o3, None, s3);
    RunCons(s0, e0, tail1, s1, o1);
  }

  /** A second `<class>` before any `<comment>` replaces the pending record,
      whatever the parser held before: the first class is never yielded, and
      the comment yields the second, merged. */
  lemma ClassSupplantsPending(s: State, first: Element, second: Element, comment: Element)
    requires TagOf(first.tag) == ClassTag && first.name.Some?
    requires TagOf(second.tag) == ClassTag && second.name.Some?
    requires TagOf(comment.tag) == CommentTag
    ensures RunFrom(s, [Event(End, first), Event(End, second), Event(End, comment)])
            == Run([MergeComment(ClassRecord(second.name.value, second.innerXml), comment)], None,
                   s.(pending := None, typesCount := s.typesCount + 1))
  {
    var record := ClassRecord(second.name.value, second.innerXml);
    var s1 := s.(pending := Some(ClassRecord(first.name.value, first.innerXml)));
    var s2 := s.(pending := Some(record));
    ClassStep(s, first);
    ClassStep(s1, second);
    CommentStep(s2, comment);
    ThreeSteps(s, Event(End, first), Event(End, second), Event(End, comment),
               s1, s2, s2.(pending := None, typesCount := s.typesCount + 1), [], [], [MergeComment(record, comment)]);
    assert [] + ([] + [MergeComment(record, comment)]) == [MergeComment(record, comment)];
  }

  /** A class, a comment and a `<methods>` with a class-id, in that order. */
  lemma ClassCommentMethodsRun(cls: Element, comment: Element, methods: Element)
    requires TagOf(cls.tag) == ClassTag && cls.name.Some?
    requires TagOf(comment.tag) == CommentTag
    requires TagOf(methods.tag) == MethodsTag && methods.classId.Some?
    ensures var className := ExtractClassName(methods.classId.value);
            RunFrom(Initial, [Event(End, cls), Event(End, comment), Event(End, methods)])
            == Run([MergeComment(ClassRecord(cls.name.value, cls.innerXml), comment)] + MethodRecords(className, methods.bodies),
                   None, State(None, Some(className), 1, |methods.bodies|))
  {
    var record := ClassRecord(cls.name.value, cls.innerXml);
    var className := ExtractClassName(methods.classId.value);
    var s1 := Initial.(pending := Some(record));
    var s2 := s1.(pending := None, typesCount := 1);
    var s3 := s2.(className := Some(className), methodsCount := s2.methodsCount + |methods.bodies|);
    ClassStep(Initial, cls);
    CommentStep(s1, comment);
    MethodsStep(s2, methods);
    ThreeSteps(Initial, Event(End, cls), Event(End, comment), Event(End, methods),
               s1, s2, s3, [], [MergeComment(record, comment)], MethodRecords(className, methods.bodies));
    assert [] + ([MergeComment(record, comment)] + MethodRecords(className, methods.bodies))
           == [MergeComment(record, comment)] + MethodRecords(className, methods.bodies);
  }

  /** A class, the comment about it and its methods: the class is yielded
      with its comment, then one METHOD record per body, and the counters
      end at one TYPE and one METHOD per body. */
  lemma ClassCommentMethods(cls: Element, comment: Element, methods: Element)
    requires TagOf(cls.tag) == ClassTag && cls.name.Some?
    requires TagOf(comment.tag) == CommentTag
    requires EndsWith(ExtractClassName(comment.classId.GetOr("")), ExtractClassName(cls.name.value))
    requires TagOf(methods.tag) == MethodsTag && methods.classId.Some?
    ensures var typeRecord := ClassRecord(cls.name.value, cls.innerXml).(comment := Strip(comment.bodyText.GetOr("")));
            var className := ExtractClassName(methods.classId.value);
            RunFrom(Initial, [Event(End, cls), Event(End, comment), Event(End, methods)])
            == Run([typeRecord] + MethodRecords(className, methods.bodies), None,
                   State(None, Some(className), 1, |methods.bodies|))
  {
    ClassCommentMethodsRun(cls, comment, methods);
    var record := ClassRecord(cls.name.value, cls.innerXml);
    assert MergeComment(record, comment) == record.(comment := Strip(comment.bodyText.GetOr("")));
  }
}
