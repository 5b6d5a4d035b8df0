/** The first pass of truncate_xml_to_lines in app/truncate_xml_new.py
    (lines 40-86): one walk over the file's lines that records the line range
    of every closed <class> element, with the last <name> seen inside it, and
    of every closed <methods> element, with the last <class-id> seen inside
    it. The regular expressions and substring tests it uses become the line
    predicates below. */
module LineScan {
  import opened Optional
  import opened Text

  /** `re.search(r'<class[>\s]', line)`. */
  predicate OpensClass(line: string)
    decreases |line|
  {
    (|line| >= 7 && line[..6] == "<class" && (line[6] == '>' || IsSpace(line[6])))
    || (|line| > 0 && OpensClass(line[1..]))
  }

  /** `'</class>' in line`. */
  predicate ClosesClass(line: string) {
    Contains(line, "</class>")
  }

  /** `'<methods>' in line`. */
  predicate OpensMethods(line: string) {
    Contains(line, "<methods>")
  }

  /** `'</methods>' in line`. */
  predicate ClosesMethods(line: string) {
    Contains(line, "</methods>")
  }

  /** Length of the leading run of characters other than '<' (`[^<]*`, greedy). */
  function TextRun(s: string): (n: nat)
    ensures n <= |s|
    ensures forall k :: 0 <= k < n ==> s[k] != '<'
    ensures n < |s| ==> s[n] == '<'
    decreases |s|
  {
    if |s| == 0 || s[0] == '<' then 0 else 1 + TextRun(s[1..])
  }

  /** The pattern `open + '([^<]+)' + close` matches at position `i` of `s`
      with `v` as group 1. */
  predicate CaptureAt(s: string, i: nat, open: string, close: string, v: string) {
    i <= |s| && |v| > 0 && '<' !in v && StartsWith(s[i..], open + v + close)
  }

  /** The pattern matches nowhere before position `i`. */
  ghost predicate NoCaptureBefore(s: string, i: nat, open: string, close: string) {
    forall k, w :: 0 <= k < i ==> !CaptureAt(s, k, open, close, w)
  }

  /** What `re.search` returns for the pattern: group 1 of the leftmost
      match, or None when the pattern matches nowhere. */
  ghost predicate Searched(s: string, open: string, close: string, r: Option<string>) {
    && (r.Some? ==> exists i :: CaptureAt(s, i, open, close, r.value) && NoCaptureBefore(s, i, open, close))
    && (r.None? ==> NoCaptureBefore(s, |s| + 1, open, close))
  }

  /** Group 1 of `re.search(open + '([^<]+)' + close, s)`, for a `close` that
      starts with '<': the leftmost `open` followed by a non-empty run without
      '<' that is followed by `close`. Backtracking cannot shorten the run,
      since the character after a shorter run is not '<'. */
  function Capture(s: string, open: string, close: string): (r: Option<string>)
    requires |close| > 0 && close[0] == '<'
    ensures Searched(s, open, close, r)
    ensures r.Some? ==> |r.value| > 0 && '<' !in r.value
    ensures r.Some? ==> Contains(s, open + r.value + close)
    decreases |s|
  {
    var run := if StartsWith(s, open) then TextRun(s[|open|..]) else 0;
    if StartsWith(s, open) && run > 0 && StartsWith(s[|open| + run..], close) then
      var v := s[|open|..|open| + run];
      assert s[..|open + v + close|] == open + v + close;
      assert s[0..] == s;
      assert CaptureAt(s, 0, open, close, v);
      Some(v)
    else
      NoCaptureHere(s, open, close);
      if |s| == 0 then None
      else
        var r := Capture(s[1..], open, close);
        CaptureShiftAll(s, open, close, r);
        r
  }

  /** A match at `i` is the greedy run after `open`, up to the next '<'. */
  lemma CaptureAtRun(s: string, i: nat, open: string, close: string, v: string)
    requires |close| > 0 && close[0] == '<'
    requires CaptureAt(s, i, open, close, v)
    ensures StartsWith(s[i..], open)
    ensures |v| == TextRun(s[i + |open|..])
    ensures v == s[i + |open|..i + |open| + |v|]
    ensures StartsWith(s[i + |open| + |v|..], close)
  {
    var t := s[i..];
    var m := open + v + close;
    assert t[..|m|] == m;
    assert t[..|open|] == m[..|open|] == open;
    assert s[i + |open|..i + |open| + |v|] == m[|open|..|open| + |v|] == v;
    assert s[i + |open| + |v|..][..|close|] == m[|open| + |v|..] == close;
    var u := s[i + |open|..];
    assert u[|v|] == close[0] == '<';
    forall k | 0 <= k < |v| ensures u[k] != '<' {
      assert u[k] == v[k];
    }
  }

  /** The pattern has at most one group 1 at a given position. */
  lemma CaptureAtUnique(s: string, i: nat, open: string, close: string, v: string, w: string)
    requires |close| > 0 && close[0] == '<'
    requires CaptureAt(s, i, open, close, v) && CaptureAt(s, i, open, close, w)
    ensures v == w
  {
    CaptureAtRun(s, i, open, close, v);
    CaptureAtRun(s, i, open, close, w);
  }

  /** When the test at the start of `s` fails, nothing matches there. */
  lemma NoCaptureHere(s: string, open: string, close: string)
    requires |close| > 0 && close[0] == '<'
    requires var run := if StartsWith(s, open) then TextRun(s[|open|..]) else 0;
             !(StartsWith(s, open) && run > 0 && StartsWith(s[|open| + run..], close))
    ensures forall w :: !CaptureAt(s, 0, open, close, w)
  {
    assert s[0..] == s;
    forall w | CaptureAt(s, 0, open, close, w) ensures false {
      CaptureAtRun(s, 0, open, close, w);
    }
  }

  /** A match at `k + 1` of `s` is a match at `k` of `s[1..]`. */
  lemma CaptureShift(s: string, k: nat, open: string, close: string, w: string)
    requires |s| > 0
    ensures CaptureAt(s, k + 1, open, close, w) <==> CaptureAt(s[1..], k, open, close, w)
  {
    if k + 1 <= |s| {
      assert s[k + 1..] == s[1..][k..];
    }
  }

  /** The search resumed one character on gives the search of `s`, when
      nothing matches at its start. */
  lemma CaptureShiftAll(s: string, open: string, close: string, r: Option<string>)
    requires |s| > 0
    requires forall w :: !CaptureAt(s, 0, open, close, w)
    requires Searched(s[1..], open, close, r)
    ensures Searched(s, open, close, r)
  {
    if r.Some? {
      var i: nat :| CaptureAt(s[1..], i, open, close, r.value) && NoCaptureBefore(s[1..], i, open, close);
      CaptureShift(s, i, open, close, r.value);
      forall k, w | 0 <= k < i + 1 ensures !CaptureAt(s, k, open, close, w) {
        if k > 0 {
          CaptureShift(s, k - 1, open, close, w);
        }
      }
    } else {
      forall k, w | 0 <= k < |s| + 1 ensures !CaptureAt(s, k, open, close, w) {
        if k > 0 {
          CaptureShift(s, k - 1, open, close, w);
        }
      }
    }
  }

  /** Which captured child a range records. */
  datatype Field = NameField | ClassIdField

  /** `if '<name>' in line: re.search(r'<name>([^<]+)</name>', line)`. */
  function NameOn(line: string): Option<string> {
    if Contains(line, "<name>") then Capture(line, "<name>", "</name>") else None
  }

  /** `if '<class-id>' in line: re.search(r'<class-id>([^<]+)</class-id>', line)`. */
  function ClassIdOn(line: string): Option<string> {
    if Contains(line, "<class-id>") then Capture(line, "<class-id>", "</class-id>") else None
  }

  /** What the pass looks at on one line: the four tag tests and the two captures. */
  datatype LineInfo = LineInfo(
    opensClass: bool, closesClass: bool, opensMethods: bool, closesMethods: bool,
    name: Option<string>, classId: Option<string>)
  {
    function Captured(f: Field): Option<string> {
      match f
      case NameField => name
      case ClassIdField => classId
    }
  }

  function Classify(line: string): LineInfo {
    LineInfo(OpensClass(line), ClosesClass(line), OpensMethods(line), ClosesMethods(line),
             NameOn(line), ClassIdOn(line))
  }

  /** The summary of every line of the file, in order. */
  function ClassifyAll(lines: seq<string>): (info: seq<LineInfo>)
    ensures |info| == |lines|
    ensures forall k {:trigger info[k]} :: 0 <= k < |lines| ==> info[k] == Classify(lines[k])
  {
    seq(|lines|, k requires 0 <= k < |lines| => Classify(lines[k]))
  }

  /** The last capture of `f` on info lo..hi-1, or None. */
  function LastField(info: seq<LineInfo>, f: Field, lo: nat, hi: nat): (r: Option<string>)
    requires lo <= hi <= |info|
    ensures r.Some? ==> exists j :: lo <= j < hi && info[j].Captured(f) == r
                          && forall k :: j < k < hi ==> info[k].Captured(f).None?
    ensures r.None? ==> forall j :: lo <= j < hi ==> info[j].Captured(f).None?
    decreases hi - lo
  {
    if hi == lo then None
    else if info[hi - 1].Captured(f).Some? then info[hi - 1].Captured(f)
    else LastField(info, f, lo, hi - 1)
  }

  /** class_depth once the class that opens on line `start` has been walked
      through line `j`: 1 on the start line itself, then one more for every
      line that opens a class and one less for every line that closes one. */
  function Depth(info: seq<LineInfo>, start: nat, j: nat): int
    requires start <= j < |info|
    decreases j - start
  {
    if j == start then 1
    else Depth(info, start, j - 1)
         + (if info[j].opensClass then 1 else 0)
         - (if info[j].closesClass then 1 else 0)
  }

  /** A recorded line range and its captured label (class name or class-id). */
  datatype Span = Span(start: nat, end: nat, captured: Option<string>)

  /** The inner loop of the class branch, resumed at line `i` with the current
      depth and name: the closing line and the name, or None at end of file. */
  function ClassEnd(info: seq<LineInfo>, i: nat, depth: int, name: Option<string>): (r: Option<(nat, Option<string>)>)
    requires i <= |info|
    ensures r.Some? ==> i <= r.value.0 < |info|
    decreases |info| - i
  {
    if i == |info| then None
    else
      var name' := if info[i].Captured(NameField).Some? then info[i].Captured(NameField) else name;
      var d := if info[i].opensClass then depth + 1 else depth;
      if info[i].closesClass && d - 1 == 0 then Some((i, name'))
      else ClassEnd(info, i + 1, if info[i].closesClass then d - 1 else d, name')
  }

  /** The inner loop of the methods branch, resumed at line `i`. */
  function MethodsEnd(info: seq<LineInfo>, i: nat, classId: Option<string>): (r: Option<(nat, Option<string>)>)
    requires i <= |info|
    ensures r.Some? ==> i <= r.value.0 < |info|
    decreases |info| - i
  {
    if i == |info| then None
    else
      var id' := if info[i].Captured(ClassIdField).Some? then info[i].Captured(ClassIdField) else classId;
      if info[i].closesMethods then Some((i, id'))
      else MethodsEnd(info, i + 1, id')
  }

  /** What the pass records: class ranges and methods ranges. */
  datatype Ranges = Ranges(classes: seq<Span>, methods: seq<Span>)

  /** The outer loop from line `i`. A range that is never closed consumes the
      rest of the file and is not recorded. */
  function ScanFrom(info: seq<LineInfo>, i: nat): Ranges
    requires i <= |info|
    decreases |info| - i
  {
    if i == |info| then Ranges([], [])
    else if info[i].opensClass then
      match ClassEnd(info, i + 1, 1, None)
      case None => Ranges([], [])
      case Some((e, name)) =>
        var rest := ScanFrom(info, e + 1);
        Ranges([Span(i, e, name)] + rest.classes, rest.methods)
    else if info[i].opensMethods then
      match MethodsEnd(info, i + 1, None)
      case None => Ranges([], [])
      case Some((e, id)) =>
        var rest := ScanFrom(info, e + 1);
        Ranges(rest.classes, [Span(i, e, id)] + rest.methods)
    else ScanFrom(info, i + 1)
  }

  /** What is still to be recorded when the outer loop is at `i` (past the
      end after an unclosed range). */
  function Remaining(info: seq<LineInfo>, i: nat): Ranges {
    if i <= |info| then ScanFrom(info, i) else Ranges([], [])
  }

  /** The imperative pass, with the manual index `i` and the depth counter,
      over the line summaries (the line tests are pure, so computing them up
      front changes nothing). */
  method ScanRanges(info: seq<LineInfo>) returns (classRanges: seq<Span>, methodsRanges: seq<Span>)
    ensures Ranges(classRanges, methodsRanges) == ScanFrom(info, 0)
  {
    classRanges, methodsRanges := [], [];
    var i: nat := 0;
    while i < |info|
      invariant i <= |info| + 1
      invariant ScanFrom(info, 0) == Ranges(classRanges + Remaining(info, i).classes,
                                             methodsRanges + Remaining(info, i).methods)
      decreases |info| + 1 - i
    {
      if info[i].opensClass {
        var classStart := i;
        var className, closed;
        i, className, closed := FindClassEnd(info, classStart);
        if closed {
          assert ScanFrom(info, classStart) == Ranges([Span(classStart, i, className)] + ScanFrom(info, i + 1).classes,
                                                      ScanFrom(info, i + 1).methods);
          assert classRanges + [Span(classStart, i, className)] + ScanFrom(info, i + 1).classes
              == classRanges + ([Span(classStart, i, className)] + ScanFrom(info, i + 1).classes);
          classRanges := classRanges + [Span(classStart, i, className)];
        }
      } else if info[i].opensMethods {
        var methodsStart := i;
        var classId, closed;
        i, classId, closed := FindMethodsEnd(info, methodsStart);
        if closed {
          assert ScanFrom(info, methodsStart) == Ranges(ScanFrom(info, i + 1).classes,
                                                        [Span(methodsStart, i, classId)] + ScanFrom(info, i + 1).methods);
          assert methodsRanges + [Span(methodsStart, i, classId)] + ScanFrom(info, i + 1).methods
              == methodsRanges + ([Span(methodsStart, i, classId)] + ScanFrom(info, i + 1).methods);
          methodsRanges := methodsRanges + [Span(methodsStart, i, classId)];
        }
      }
      i := i + 1;
    }
  }

  /** The inner loop of the class branch: from the line after `start`, track
      the depth and the last name until the depth returns to 0 (`closed`) or
      the file ends. */
  method FindClassEnd(info: seq<LineInfo>, start: nat) returns (i: nat, className: Option<string>, closed: bool)
    requires start < |info|
    ensures closed ==> ClassEnd(info, start + 1, 1, None) == Some((i, className))
    ensures !closed ==> ClassEnd(info, start + 1, 1, None) == None && i == |info|
  {
    className, closed := None, false;
    var depth := 1;
    i := start + 1;
    while i < |info| && depth > 0
      invariant start < i <= |info|
      invariant depth >= 1
      invariant ClassEnd(info, i, depth, className) == ClassEnd(info, start + 1, 1, None)
    {
      var name := info[i].name;
      if name.Some? {
        className := name;
      }
      if info[i].opensClass {
        depth := depth + 1;
      }
      if info[i].closesClass {
        depth := depth - 1;
        if depth == 0 {
          closed := true;
          return;
        }
      }
      i := i + 1;
    }
  }

  /** The inner loop of the methods branch: from the line after `start`,
      track the last class-id until a line closes the methods element
      (`closed`) or the file ends. */
  method FindMethodsEnd(info: seq<LineInfo>, start: nat) returns (i: nat, classId: Option<string>, closed: bool)
    requires start < |info|
    ensures closed ==> MethodsEnd(info, start + 1, None) == Some((i, classId))
    ensures !closed ==> MethodsEnd(info, start + 1, None) == None && i == |info|
  {
    classId, closed := None, false;
    i := start + 1;
    while i < |info|
      invariant start < i <= |info|
      invariant MethodsEnd(info, i, classId) == MethodsEnd(info, start + 1, None)
    {
      var id := info[i].classId;
      if id.Some? {
        classId := id;
      }
      if info[i].closesMethods {
        closed := true;
        return;
      }
      i := i + 1;
    }
  }

  /** A recorded class range: it opens on its start line, the depth first
      returns to 0 on its end line, which closes a class, and its name is the
      last <name> capture on info start+1..end. */
  ghost predicate IsClassRange(info: seq<LineInfo>, s: Span) {
    && s.start < s.end < |info|
    && info[s.start].opensClass
    && info[s.end].closesClass
    && Depth(info, s.start, s.end) == 0
    && (forall j :: s.start <= j < s.end ==> Depth(info, s.start, j) > 0)
    && s.captured == LastField(info, NameField, s.start + 1, s.end + 1)
  }

  /** A recorded methods range: its start line holds <methods> (and opens no
      class), its end line is the first later line holding </methods>, and its
      class-id is the last <class-id> capture on info start+1..end. */
  ghost predicate IsMethodsRange(info: seq<LineInfo>, s: Span) {
    && s.start < s.end < |info|
    && !info[s.start].opensClass
    && info[s.start].opensMethods
    && info[s.end].closesMethods
    && (forall j :: s.start < j < s.end ==> !info[j].closesMethods)
    && s.captured == LastField(info, ClassIdField, s.start + 1, s.end + 1)
  }

  /** Line `e` ends the class opened on line `start`, whose name is `n`. */
  ghost predicate ClassClosedAt(info: seq<LineInfo>, start: nat, e: nat, n: Option<string>)
    requires start <= e < |info|
  {
    && info[e].closesClass
    && Depth(info, start, e) == 0
    && (forall j :: start <= j < e ==> Depth(info, start, j) > 0)
    && n == LastField(info, NameField, start + 1, e + 1)
  }

  /** Line `e` ends the methods block opened on line `start`, whose class-id is `c`. */
  ghost predicate MethodsClosedAt(info: seq<LineInfo>, start: nat, e: nat, c: Option<string>)
    requires start < e < |info|
  {
    && info[e].closesMethods
    && (forall j :: start < j < e ==> !info[j].closesMethods)
    && c == LastField(info, ClassIdField, start + 1, e + 1)
  }

  /** The class inner loop stops exactly where the depth first returns to 0. */
  lemma {:induction false} ClassEndSpec(info: seq<LineInfo>, start: nat, i: nat, depth: int, name: Option<string>)
    requires start < i <= |info|
    requires depth == Depth(info, start, i - 1) && depth >= 1
    requires forall j :: start <= j < i ==> Depth(info, start, j) > 0
    requires name == LastField(info, NameField, start + 1, i)
    ensures var r := ClassEnd(info, i, depth, name);
            r.Some? ==> ClassClosedAt(info, start, r.value.0, r.value.1)
    ensures ClassEnd(info, i, depth, name).None? ==>
            forall j :: start <= j < |info| ==> Depth(info, start, j) > 0
    decreases |info| - i
  {
    if i < |info| {
      var name' := if info[i].Captured(NameField).Some? then info[i].Captured(NameField) else name;
      var d := if info[i].opensClass then depth + 1 else depth;
      var next := if info[i].closesClass then d - 1 else d;
      assert Depth(info, start, i) == next;
      assert name' == LastField(info, NameField, start + 1, i + 1);
      if info[i].closesClass && d - 1 == 0 {
        assert ClassEnd(info, i, depth, name) == Some((i, name'));
        assert ClassClosedAt(info, start, i, name');
      } else {
        assert ClassEnd(info, i, depth, name) == ClassEnd(info, i + 1, next, name');
        ClassEndSpec(info, start, i + 1, next, name');
      }
    }
  }

  /** The methods inner loop stops at the first line holding </methods>. */
  lemma {:induction false} MethodsEndSpec(info: seq<LineInfo>, start: nat, i: nat, classId: Option<string>)
    requires start < i <= |info|
    requires forall j :: start < j < i ==> !info[j].closesMethods
    requires classId == LastField(info, ClassIdField, start + 1, i)
    ensures var r := MethodsEnd(info, i, classId);
            r.Some? ==> MethodsClosedAt(info, start, r.value.0, r.value.1)
    ensures MethodsEnd(info, i, classId).None? ==>
            forall j :: start < j < |info| ==> !info[j].closesMethods
    decreases |info| - i
  {
    if i < |info| && !info[i].closesMethods {
      MethodsEndSpec(info, start, i + 1, if info[i].Captured(ClassIdField).Some? then info[i].Captured(ClassIdField) else classId);
    }
  }

  /** Every range recorded from line `i` on starts at or after `i`. */
  ghost predicate StartsFrom(r: Ranges, i: nat) {
    && (forall k :: 0 <= k < |r.classes| ==> i <= r.classes[k].start)
    && (forall k :: 0 <= k < |r.methods| ==> i <= r.methods[k].start)
  }

  /** Every recorded range is a genuine class or methods range. */
  ghost predicate AllGenuine(info: seq<LineInfo>, r: Ranges) {
    && (forall k :: 0 <= k < |r.classes| ==> IsClassRange(info, r.classes[k]))
    && (forall k :: 0 <= k < |r.methods| ==> IsMethodsRange(info, r.methods[k]))
  }

  lemma {:induction false} ScanStartsFrom(info: seq<LineInfo>, i: nat)
    requires i <= |info|
    ensures StartsFrom(ScanFrom(info, i), i)
    decreases |info| - i
  {
    if i < |info| {
      var r := ScanFrom(info, i);
      if info[i].opensClass {
        match ClassEnd(info, i + 1, 1, None)
        case None =>
        case Some((e, name)) =>
          ScanStartsFrom(info, e + 1);
          var rest := ScanFrom(info, e + 1);
          assert r.classes == [Span(i, e, name)] + rest.classes && r.methods == rest.methods;
      } else if info[i].opensMethods {
        match MethodsEnd(info, i + 1, None)
        case None =>
        case Some((e, id)) =>
          ScanStartsFrom(info, e + 1);
          var rest := ScanFrom(info, e + 1);
          assert r.methods == [Span(i, e, id)] + rest.methods && r.classes == rest.classes;
      } else {
        ScanStartsFrom(info, i + 1);
      }
    }
  }

  lemma ClassRangeFound(info: seq<LineInfo>, i: nat, e: nat, name: Option<string>)
    requires i < |info| && info[i].opensClass
    requires ClassEnd(info, i + 1, 1, None) == Some((e, name))
    ensures IsClassRange(info, Span(i, e, name))
  {
    assert Depth(info, i, i) == 1;
    assert LastField(info, NameField, i + 1, i + 1) == None;
    ClassEndSpec(info, i, i + 1, 1, None);
    assert ClassClosedAt(info, i, e, name);
  }

  lemma MethodsRangeFound(info: seq<LineInfo>, i: nat, e: nat, id: Option<string>)
    requires i < |info| && !info[i].opensClass && info[i].opensMethods
    requires MethodsEnd(info, i + 1, None) == Some((e, id))
    ensures IsMethodsRange(info, Span(i, e, id))
  {
    MethodsEndSpec(info, i, i + 1, None);
  }

  /** Every range the pass records is a genuine class or methods range. */
  lemma {:induction false} ScanValid(info: seq<LineInfo>, i: nat)
    requires i <= |info|
    ensures AllGenuine(info, ScanFrom(info, i))
    decreases |info| - i
  {
    if i < |info| {
      var r := ScanFrom(info, i);
      if info[i].opensClass {
        match ClassEnd(info, i + 1, 1, None)
        case None =>
        case Some((e, name)) =>
          ScanValid(info, e + 1);
          ClassRangeFound(info, i, e, name);
          var rest := ScanFrom(info, e + 1);
          assert r.classes == [Span(i, e, name)] + rest.classes && r.methods == rest.methods;
      } else if info[i].opensMethods {
        match MethodsEnd(info, i + 1, None)
        case None =>
        case Some((e, id)) =>
          ScanValid(info, e + 1);
          MethodsRangeFound(info, i, e, id);
          var rest := ScanFrom(info, e + 1);
          assert r.methods == [Span(i, e, id)] + rest.methods && r.classes == rest.classes;
      } else {
        ScanValid(info, i + 1);
      }
    }
  }

  /** Each range ends before the next one starts. */
  ghost predicate Ordered(spans: seq<Span>) {
    forall a, b :: 0 <= a < b < |spans| ==> spans[a].end < spans[b].start
  }

  /** No class range overlaps a methods range. */
  ghost predicate Apart(xs: seq<Span>, ys: seq<Span>) {
    forall a, b :: 0 <= a < |xs| && 0 <= b < |ys| ==> xs[a].end < ys[b].start || ys[b].end < xs[a].start
  }

  /** Ranges come in file order and never share a line, because the scan
      resumes after each range's end line. */
  lemma {:induction false} ScanOrdered(info: seq<LineInfo>, i: nat)
    requires i <= |info|
    ensures var r := ScanFrom(info, i);
            Ordered(r.classes) && Ordered(r.methods) && Apart(r.classes, r.methods)
    decreases |info| - i
  {
    if i < |info| {
      var r := ScanFrom(info, i);
      if info[i].opensClass {
        match ClassEnd(info, i + 1, 1, None)
        case None =>
        case Some((e, name)) =>
          ScanOrdered(info, e + 1);
          ScanStartsFrom(info, e + 1);
          var rest := ScanFrom(info, e + 1);
          var head := Span(i, e, name);
          assert r.classes == [head] + rest.classes && r.methods == rest.methods;
          PrependOrdered(head, rest.classes);
          PrependApart(head, rest.classes, rest.methods);
      } else if info[i].opensMethods {
        match MethodsEnd(info, i + 1, None)
        case None =>
        case Some((e, id)) =>
          ScanOrdered(info, e + 1);
          ScanStartsFrom(info, e + 1);
          var rest := ScanFrom(info, e + 1);
          var head := Span(i, e, id);
          assert r.methods == [head] + rest.methods && r.classes == rest.classes;
          PrependOrdered(head, rest.methods);
          PrependApart(head, rest.methods, rest.classes);
          ApartSymmetric([head] + rest.methods, rest.classes);
      } else {
        ScanOrdered(info, i + 1);
      }
    }
  }

  lemma PrependOrdered(head: Span, spans: seq<Span>)
    requires Ordered(spans)
    requires forall k :: 0 <= k < |spans| ==> head.end < spans[k].start
    ensures Ordered([head] + spans)
  {
    var all := [head] + spans;
    forall a, b | 0 <= a < b < |all| ensures all[a].end < all[b].start {
      if a > 0 {
        assert all[a] == spans[a - 1] && all[b] == spans[b - 1];
      } else {
        assert all[b] == spans[b - 1];
      }
    }
  }

  lemma PrependApart(head: Span, xs: seq<Span>, ys: seq<Span>)
    requires Apart(xs, ys)
    requires forall k :: 0 <= k < |ys| ==> head.end < ys[k].start
    ensures Apart([head] + xs, ys)
  {
    var all := [head] + xs;
    forall a, b | 0 <= a < |all| && 0 <= b < |ys|
      ensures all[a].end < ys[b].start || ys[b].end < all[a].start
    {
      if a > 0 {
        assert all[a] == xs[a - 1];
      }
    }
  }

  lemma ApartSymmetric(xs: seq<Span>, ys: seq<Span>)
    requires Apart(xs, ys)
    ensures Apart(ys, xs)
  {
  }
}
