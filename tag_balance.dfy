/** balance_xml_tags, which appears verbatim in app/truncate_xml.py:55-103 and
    app/truncate_xml_new.py:167-215: the last-resort repair of truncated XML.
    Each line is kept; a stack of open tag names is updated line by line
    (the line's opening tags pushed left to right, then each of its closing
    tags pops the stack only if it names the top); whatever stays open is
    closed at the end, innermost first, after a marker comment. */
module TagBalance {
  import opened Text
  import opened XmlTags

  /** The marker comment without the newline that the appended line starts with. */
  const MarkerText: string := "  <!-- Truncated - closing open tags -->"

  /** The line appended before the closing tags: a newline, then the comment. */
  const Marker: string := "\n" + MarkerText

  /** The closing tags of one line, applied in order: a tag pops the stack
      only when it equals the top; otherwise the stack stays as it is. */
  function PopMatching(stack: seq<string>, closes: seq<string>): (r: seq<string>)
    ensures |r| <= |stack| && r == stack[..|r|]
    decreases |closes|
  {
    if |closes| == 0 then stack
    else
      var s := if |stack| > 0 && stack[|stack| - 1] == closes[0] then stack[..|stack| - 1] else stack;
      PopMatching(s, closes[1..])
  }

  /** The stack after one line: its opening tags pushed, then its closing tags applied. */
  function StepLine(stack: seq<string>, line: string): seq<string> {
    PopMatching(stack + OpeningTags(line), ClosingTags(line))
  }

  /** The tags still open after the given lines, starting from `stack`. */
  function OpenAfter(stack: seq<string>, lines: seq<string>): seq<string>
    decreases |lines|
  {
    if |lines| == 0 then stack else OpenAfter(StepLine(stack, lines[0]), lines[1..])
  }

  /** One `</tag>` line per open tag, innermost (top of the stack) first. */
  function Closers(stack: seq<string>): (r: seq<string>)
    ensures |r| == |stack|
    ensures forall k :: 0 <= k < |r| ==> r[k] == "</" + stack[|stack| - 1 - k] + ">"
    decreases |stack|
  {
    if |stack| == 0 then []
    else ["</" + stack[|stack| - 1] + ">"] + Closers(stack[..|stack| - 1])
  }

  /** The output lines: the input lines, then, if tags stay open, the marker and their closers. */
  function BalancedLines(lines: seq<string>): seq<string> {
    var open := OpenAfter([], lines);
    if |open| == 0 then lines else lines + [Marker] + Closers(open)
  }

  /** The whole function: split on '\n', balance, join on '\n'. */
  function Balance(content: string): string {
    Join(BalancedLines(Split(content, '\n')), '\n')
  }

  /** The imperative procedure, line by line, with the open-tag stack. */
  method BalanceXmlTags(content: string) returns (result: string)
    ensures result == Balance(content)
  {
    var lines := Split(content, '\n');
    var openTags: seq<string> := [];
    var balanced: seq<string> := [];
    var i := 0;
    while i < |lines|
      invariant 0 <= i <= |lines|
      invariant balanced == lines[..i]
      invariant OpenAfter(openTags, lines[i..]) == OpenAfter([], lines)
    {
      var line := lines[i];
      balanced := balanced + [line];
      openTags := PushOpenings(openTags, OpeningTags(line));
      openTags := PopClosings(openTags, ClosingTags(line));
      assert lines[i..][1..] == lines[i + 1..];
      i := i + 1;
    }
    assert lines[..i] == lines && lines[i..] == [];
    if |openTags| > 0 {
      balanced := CloseAll(balanced + [Marker], openTags);
    }
    result := Join(balanced, '\n');
  }

  /** The loop over the opening-tag matches of one line: each name is pushed. */
  method PushOpenings(stack: seq<string>, opens: seq<string>) returns (r: seq<string>)
    ensures r == stack + opens
  {
    r := stack;
    for j := 0 to |opens|
      invariant r == stack + opens[..j]
    {
      r := r + [opens[j]];
      assert opens[..j + 1] == opens[..j] + [opens[j]];
    }
    assert opens[..|opens|] == opens;
  }

  /** The loop over the closing-tag matches of one line: a match pops the
      stack only when it names the top. */
  method PopClosings(stack: seq<string>, closes: seq<string>) returns (r: seq<string>)
    ensures r == PopMatching(stack, closes)
  {
    r := stack;
    var j := 0;
    while j < |closes|
      invariant 0 <= j <= |closes|
      invariant PopMatching(r, closes[j..]) == PopMatching(stack, closes)
    {
      if |r| > 0 && r[|r| - 1] == closes[j] {
        r := r[..|r| - 1];
      }
      assert closes[j..][1..] == closes[j + 1..];
      j := j + 1;
    }
  }

  /** The final loop: pop every open tag and append its closing line. */
  method CloseAll(lines: seq<string>, stack: seq<string>) returns (r: seq<string>)
    ensures r == lines + Closers(stack)
  {
    r := lines;
    var openTags := stack;
    while |openTags| > 0
      invariant |openTags| <= |stack| && openTags == stack[..|openTags|]
      invariant r + Closers(openTags) == lines + Closers(stack)
    {
      var tag := openTags[|openTags| - 1];
      openTags := openTags[..|openTags| - 1];
      r := r + ["</" + tag + ">"];
    }
    assert r + Closers(openTags) == r;
  }

  /** The output starts with the input text unchanged; with nothing left open
      it is exactly the input. */
  lemma BalanceKeepsInput(content: string)
    ensures |content| <= |Balance(content)|
    ensures Balance(content)[..|content|] == content
    ensures OpenAfter([], Split(content, '\n')) == [] ==> Balance(content) == content
  {
    var lines := Split(content, '\n');
    var open := OpenAfter([], lines);
    if |open| > 0 {
      JoinAppend(lines, [Marker] + Closers(open), '\n');
      assert lines + [Marker] + Closers(open) == lines + ([Marker] + Closers(open));
    }
  }

  /** The number of opening-tag matches in the lines. */
  function OpeningCount(lines: seq<string>): nat
    decreases |lines|
  {
    if |lines| == 0 then 0 else |OpeningTags(lines[0])| + OpeningCount(lines[1..])
  }

  /** The stack grows by at most the opening tags seen. */
  lemma {:induction false} OpenAfterBound(stack: seq<string>, lines: seq<string>)
    ensures |OpenAfter(stack, lines)| <= |stack| + OpeningCount(lines)
    decreases |lines|
  {
    if |lines| > 0 {
      OpenAfterBound(StepLine(stack, lines[0]), lines[1..]);
    }
  }

  /** There are no more appended closing tags than opening tags in the input. */
  lemma ClosersBound(content: string)
    ensures var lines := Split(content, '\n');
            |BalancedLines(lines)| <= |lines| + 1 + OpeningCount(lines)
  {
    OpenAfterBound([], Split(content, '\n'));
  }

  /** Every open tag is a tag name, so its closer is a closing tag. */
  lemma {:induction false} OpenAfterNames(stack: seq<string>, lines: seq<string>)
    requires forall k :: 0 <= k < |stack| ==> IsTagName(stack[k])
    ensures var r := OpenAfter(stack, lines);
            forall k :: 0 <= k < |r| ==> IsTagName(r[k])
    decreases |lines|
  {
    if |lines| > 0 {
      var pushed := stack + OpeningTags(lines[0]);
      var next := StepLine(stack, lines[0]);
      assert forall k :: 0 <= k < |next| ==> next[k] == pushed[k];
      forall k | 0 <= k < |pushed| ensures IsTagName(pushed[k]) {
        if k >= |stack| {
          assert pushed[k] == OpeningTags(lines[0])[k - |stack|];
        }
      }
      OpenAfterNames(next, lines[1..]);
      assert OpenAfter(stack, lines) == OpenAfter(next, lines[1..]);
    }
  }

  /** Folding over two runs of lines is folding over the first, then the second. */
  lemma {:induction false} OpenAfterAppend(stack: seq<string>, a: seq<string>, b: seq<string>)
    ensures OpenAfter(stack, a + b) == OpenAfter(OpenAfter(stack, a), b)
    decreases |a|
  {
    if |a| > 0 {
      assert (a + b)[0] == a[0] && (a + b)[1..] == a[1..] + b;
      OpenAfterAppend(StepLine(stack, a[0]), a[1..], b);
    } else {
      assert a + b == b;
    }
  }

  /** The closers pop the stack they were made from down to nothing. */
  lemma {:induction false} ClosersEmptyStack(stack: seq<string>)
    requires forall k :: 0 <= k < |stack| ==> IsTagName(stack[k])
    ensures OpenAfter(stack, Closers(stack)) == []
    decreases |stack|
  {
    if |stack| > 0 {
      var top := stack[|stack| - 1];
      var c := Closers(stack);
      CloserLineTags(top);
      assert stack + [] == stack;
      assert c[0] == "</" + top + ">";
      assert [top][1..] == [];
      assert PopMatching(stack, [top]) == stack[..|stack| - 1];
      assert StepLine(stack, c[0]) == stack[..|stack| - 1];
      assert c[1..] == Closers(stack[..|stack| - 1]);
      ClosersEmptyStack(stack[..|stack| - 1]);
    }
  }

  /** After its '<', the marker comment holds no other '<'. */
  lemma MarkerTailHasNoTags()
    ensures |MarkerText| > 3
    ensures TagsFrom(Opening, MarkerText, 3) == [] && TagsFrom(Closing, MarkerText, 3) == []
  {
    var m := MarkerText;
    forall k | 3 <= k < |m| ensures m[k] != '<' {
    }
    NoAngleNoTags(m, 3);
  }

  /** The marker comment holds no tag. */
  lemma MarkerHasNoTags()
    ensures OpeningTags(MarkerText) == [] && ClosingTags(MarkerText) == []
    ensures OpeningTags("") == [] && ClosingTags("") == []
  {
    var m := MarkerText;
    assert m[0] == ' ' && m[1] == ' ' && m[2] == '<' && m[3] == '!';
    MarkerTailHasNoTags();
    assert MatchAt(Opening, m, 2).None? && MatchAt(Closing, m, 2).None?;
    assert TagsFrom(Opening, m, 2) == [] && TagsFrom(Closing, m, 2) == [];
    assert MatchAt(Opening, m, 0).None? && MatchAt(Closing, m, 0).None?;
    assert MatchAt(Opening, m, 1).None? && MatchAt(Closing, m, 1).None?;
  }

  /** No line of the balanced output holds a newline. */
  lemma BalancedPartsPlain(lines: seq<string>, open: seq<string>)
    requires forall k :: 0 <= k < |lines| ==> '\n' !in lines[k]
    requires forall k :: 0 <= k < |open| ==> IsTagName(open[k])
    ensures var out := lines + ["", MarkerText] + Closers(open);
            forall k :: 0 <= k < |out| ==> '\n' !in out[k]
  {
    var c := Closers(open);
    var out := lines + ["", MarkerText] + c;
    forall k | 0 <= k < |out| ensures '\n' !in out[k] {
      if k >= |lines| + 2 {
        var t := open[|open| - 1 - (k - |lines| - 2)];
        assert out[k] == "</" + t + ">";
        assert IsTagName(t);
      } else if k == |lines| + 1 {
        assert forall j :: 0 <= j < |MarkerText| ==> MarkerText[j] != '\n';
      } else if k == |lines| {
        assert out[k] == "";
      } else {
        assert out[k] == lines[k];
      }
    }
  }

  /** The marker line begins with '\n': joined, it reads as an empty line and the comment. */
  lemma JoinMarker(lines: seq<string>, c: seq<string>)
    requires |lines| >= 1 && |c| >= 1
    ensures Join(lines + [Marker] + c, '\n') == Join(lines + ["", MarkerText] + c, '\n')
  {
    var pair := ["", MarkerText];
    assert pair[..1] == [""];
    assert Join(pair, '\n') == Marker;
    JoinAppend([Marker], c, '\n');
    JoinAppend(pair, c, '\n');
    assert Join([Marker] + c, '\n') == Join(pair + c, '\n');
    JoinAppend(lines, [Marker] + c, '\n');
    JoinAppend(lines, pair + c, '\n');
    assert lines + [Marker] + c == lines + ([Marker] + c);
    assert lines + pair + c == lines + (pair + c);
  }

  /** Re-running the tag walk over the output ends with nothing open. */
  lemma OutputClosesAll(lines: seq<string>, open: seq<string>)
    requires open == OpenAfter([], lines)
    requires forall k :: 0 <= k < |open| ==> IsTagName(open[k])
    ensures OpenAfter([], lines + ["", MarkerText] + Closers(open)) == []
  {
    var c := Closers(open);
    OpenAfterAppend([], lines, ["", MarkerText] + c);
    assert lines + ["", MarkerText] + c == lines + (["", MarkerText] + c);
    assert (["", MarkerText] + c)[1..] == [MarkerText] + c;
    assert ([MarkerText] + c)[1..] == c;
    MarkerHasNoTags();
    assert open + [] == open;
    assert StepLine(open, "") == open;
    assert StepLine(open, MarkerText) == open;
    ClosersEmptyStack(open);
  }

  /** With tags left open, the balanced text balances to itself. */
  lemma BalancedTextIsFixed(lines: seq<string>)
    requires forall k :: 0 <= k < |lines| ==> '\n' !in lines[k]
    requires |lines| >= 1 && |OpenAfter([], lines)| > 0
    ensures var text := Join(lines + [Marker] + Closers(OpenAfter([], lines)), '\n');
            Balance(text) == text
  {
    var open := OpenAfter([], lines);
    var c := Closers(open);
    var text := Join(lines + [Marker] + c, '\n');
    OpenAfterNames([], lines);
    var out := lines + ["", MarkerText] + c;
    JoinMarker(lines, c);
    assert Join(out, '\n') == text;
    BalancedPartsPlain(lines, open);
    SplitJoin(out, '\n');
    OutputClosesAll(lines, open);
    assert BalancedLines(out) == out;
  }

  /** Balancing its own output changes nothing: every tag the first pass
      left open is closed by the appended lines, innermost first. */
  lemma BalanceIdempotent(content: string)
    ensures Balance(Balance(content)) == Balance(content)
  {
    var lines := Split(content, '\n');
    if |OpenAfter([], lines)| == 0 {
      assert BalancedLines(lines) == lines;
    } else {
      BalancedTextIsFixed(lines);
    }
  }
}
