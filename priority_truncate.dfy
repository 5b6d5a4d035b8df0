/** truncate_xml_to_lines of app/truncate_xml_new.py up to the joined text
    (lines 26-144): scan the ranges, pick the priority classes and their
    methods blocks, sort them, find the header, assemble the output lines
    and join them. */
module PriorityTruncate {
  import opened Optional
  import opened Text
  import opened XmlTags
  import opened LineScan
  import opened OutputAssembly
  import opened FirstLines

  /** `class_name and any(class_name.startswith(p) for p in priority_prefixes)`. */
  predicate IsPriority(name: Option<string>, prefixes: seq<string>) {
    name.Some? && |name.value| > 0 && exists k :: 0 <= k < |prefixes| && StartsWith(name.value, prefixes[k])
  }

  /** priority_class_names after the class loop. */
  function PriorityNames(classes: seq<Span>, prefixes: seq<string>): seq<string>
    decreases |classes|
  {
    if |classes| == 0 then []
    else
      var s := classes[|classes| - 1];
      PriorityNames(classes[..|classes| - 1], prefixes) + (if IsPriority(s.captured, prefixes) then [s.captured.value] else [])
  }

  /** A name is a priority class name iff some recorded class with that name
      starts with a prefix. */
  lemma {:induction false} PriorityNamesSpec(classes: seq<Span>, prefixes: seq<string>, x: string)
    ensures x in PriorityNames(classes, prefixes) <==>
            exists s :: s in classes && s.captured == Some(x) && IsPriority(s.captured, prefixes)
    decreases |classes|
  {
    if |classes| > 0 {
      var init := classes[..|classes| - 1];
      assert classes == init + [classes[|classes| - 1]];
      PriorityNamesSpec(init, prefixes, x);
    }
  }

  /** The class entries of priority_ranges, in scan order. */
  function ClassBlocks(classes: seq<Span>, prefixes: seq<string>): seq<Block>
    decreases |classes|
  {
    if |classes| == 0 then []
    else
      var s := classes[|classes| - 1];
      ClassBlocks(classes[..|classes| - 1], prefixes) + (if IsPriority(s.captured, prefixes) then [Block(ClassBlock, s)] else [])
  }

  /** The class entries are exactly the recorded classes whose name starts
      with a prefix. */
  lemma {:induction false} ClassBlocksSpec(classes: seq<Span>, prefixes: seq<string>, b: Block)
    ensures b in ClassBlocks(classes, prefixes) <==>
            b.kind == ClassBlock && b.span in classes && IsPriority(b.span.captured, prefixes)
    decreases |classes|
  {
    if |classes| > 0 {
      var init := classes[..|classes| - 1];
      assert classes == init + [classes[|classes| - 1]];
      ClassBlocksSpec(init, prefixes, b);
    }
  }

  /** The methods entries of priority_ranges: `class_id in priority_class_names`,
      which a missing class-id never is. */
  function MethodsBlocks(methods: seq<Span>, names: seq<string>): seq<Block>
    decreases |methods|
  {
    if |methods| == 0 then []
    else
      var s := methods[|methods| - 1];
      MethodsBlocks(methods[..|methods| - 1], names)
      + (if s.captured.Some? && s.captured.value in names then [Block(MethodsBlock, s)] else [])
  }

  /** The methods entries are exactly the methods ranges whose class-id is
      one of the names. */
  lemma {:induction false} MethodsBlocksSpec(methods: seq<Span>, names: seq<string>, b: Block)
    ensures b in MethodsBlocks(methods, names) <==>
            b.kind == MethodsBlock && b.span in methods && b.span.captured.Some? && b.span.captured.value in names
    decreases |methods|
  {
    if |methods| > 0 {
      var init := methods[..|methods| - 1];
      assert methods == init + [methods[|methods| - 1]];
      MethodsBlocksSpec(init, names, b);
    }
  }

  /** The two categorizing loops. (other_ranges is filled by the script but
      never read, so it is not kept.) */
  method Categorize(classes: seq<Span>, methods: seq<Span>, prefixes: seq<string>)
    returns (names: seq<string>, blocks: seq<Block>)
    ensures names == PriorityNames(classes, prefixes)
    ensures blocks == ClassBlocks(classes, prefixes) + MethodsBlocks(methods, names)
  {
    names, blocks := [], [];
    for i := 0 to |classes|
      invariant names == PriorityNames(classes[..i], prefixes)
      invariant blocks == ClassBlocks(classes[..i], prefixes)
    {
      assert classes[..i + 1][..i] == classes[..i];
      var s := classes[i];
      if IsPriority(s.captured, prefixes) {
        names := names + [s.captured.value];
        blocks := blocks + [Block(ClassBlock, s)];
      }
    }
    assert classes[..|classes|] == classes;
    ghost var classPart := blocks;
    for i := 0 to |methods|
      invariant blocks == classPart + MethodsBlocks(methods[..i], names)
    {
      assert methods[..i + 1][..i] == methods[..i];
      var s := methods[i];
      if s.captured.Some? && s.captured.value in names {
        blocks := blocks + [Block(MethodsBlock, s)];
      }
    }
    assert methods[..|methods|] == methods;
  }

  /** A block is priority iff it is a class range whose name starts with a
      prefix, or a methods range whose class-id equals such a class's name. */
  lemma CategorizeSpec(classes: seq<Span>, methods: seq<Span>, prefixes: seq<string>, b: Block)
    ensures var blocks := ClassBlocks(classes, prefixes) + MethodsBlocks(methods, PriorityNames(classes, prefixes));
            b in blocks <==>
              || (b.kind == ClassBlock && b.span in classes && IsPriority(b.span.captured, prefixes))
              || (b.kind == MethodsBlock && b.span in methods && b.span.captured.Some?
                  && exists s :: s in classes && s.captured == b.span.captured && IsPriority(s.captured, prefixes))
  {
    ClassBlocksSpec(classes, prefixes, b);
    MethodsBlocksSpec(methods, PriorityNames(classes, prefixes), b);
    if b.span.captured.Some? {
      PriorityNamesSpec(classes, prefixes, b.span.captured.value);
    }
  }

  ghost predicate SortedByStart(blocks: seq<Block>) {
    forall a, b :: 0 <= a < b < |blocks| ==> blocks[a].span.start <= blocks[b].span.start
  }

  /** Inserts `b` after every block that does not start later (keeps the
      order of equal starts, as the stable list.sort does). */
  function InsertByStart(b: Block, sorted: seq<Block>): (r: seq<Block>)
    ensures multiset(r) == multiset(sorted) + multiset{b}
    decreases |sorted|
  {
    if |sorted| == 0 then [b]
    else
      var init := sorted[..|sorted| - 1];
      var last := sorted[|sorted| - 1];
      assert sorted == init + [last];
      if last.span.start <= b.span.start then sorted + [b]
      else InsertByStart(b, init) + [last]
  }

  /** Inserting into a sorted list keeps it sorted. */
  lemma {:induction false} InsertSorted(b: Block, sorted: seq<Block>)
    requires SortedByStart(sorted)
    ensures SortedByStart(InsertByStart(b, sorted))
    decreases |sorted|
  {
    if |sorted| > 0 {
      var init := sorted[..|sorted| - 1];
      var last := sorted[|sorted| - 1];
      if b.span.start < last.span.start {
        InsertSorted(b, init);
        var rest := InsertByStart(b, init);
        forall k | 0 <= k < |rest| ensures rest[k].span.start <= last.span.start {
          assert rest[k] in multiset(init) + multiset{b};
          if rest[k] != b {
            var a :| 0 <= a < |init| && init[a] == rest[k];
          }
        }
      }
    }
  }

  /** `priority_ranges.sort(key=lambda x: x[1])`. */
  function SortByStart(blocks: seq<Block>): (r: seq<Block>)
    ensures SortedByStart(r)
    ensures multiset(r) == multiset(blocks)
    decreases |blocks|
  {
    if |blocks| == 0 then []
    else
      assert blocks == blocks[..|blocks| - 1] + [blocks[|blocks| - 1]];
      var init := SortByStart(blocks[..|blocks| - 1]);
      InsertSorted(blocks[|blocks| - 1], init);
      InsertByStart(blocks[|blocks| - 1], init)
  }

  /** `re.search(r'<[a-zA-Z]', line) and '<?xml' not in line`. */
  predicate IsHeaderLine(line: string) {
    (exists k :: 0 <= k < |line| - 1 && line[k] == '<' && IsLetter(line[k + 1]))
    && !Contains(line, "<?xml")
  }

  /** header_end: the index of the first line from `from` on that opens an
      element other than the XML declaration, or 0 when there is none. */
  function HeaderEndFrom(lines: seq<string>, from: nat): (r: nat)
    requires from <= |lines|
    ensures r == 0 || from <= r < |lines|
    decreases |lines| - from
  {
    if from == |lines| then 0
    else if IsHeaderLine(lines[from]) then from
    else HeaderEndFrom(lines, from + 1)
  }

  /** header_end of the whole file. */
  function HeaderEnd(lines: seq<string>): (r: nat)
    ensures r == 0 || r < |lines|
  {
    HeaderEndFrom(lines, 0)
  }

  /** header_end is the first header line, or 0 when no line is one. */
  lemma {:induction false} HeaderEndSpec(lines: seq<string>, from: nat)
    requires from <= |lines|
    ensures var r := HeaderEndFrom(lines, from);
            || (from <= r < |lines| && IsHeaderLine(lines[r])
                && forall k :: from <= k < r ==> !IsHeaderLine(lines[k]))
            || (r == 0 && forall k :: from <= k < |lines| ==> !IsHeaderLine(lines[k]))
    decreases |lines| - from
  {
    if from < |lines| && !IsHeaderLine(lines[from]) {
      HeaderEndSpec(lines, from + 1);
    }
  }

  /** The header loop, with its early `break`. */
  method FindHeaderEnd(lines: seq<string>) returns (headerEnd: nat)
    ensures headerEnd == HeaderEnd(lines)
  {
    headerEnd := 0;
    var i: nat := 0;
    while i < |lines|
      invariant i <= |lines|
      invariant HeaderEndFrom(lines, i) == HeaderEnd(lines)
    {
      if IsHeaderLine(lines[i]) {
        headerEnd := i;
        break;
      }
      i := i + 1;
    }
  }

  /** The joined text before the XML library sees it, or the IndexError an
      empty file raises when the header loop reads line 0. */
  datatype Outcome = Truncated(content: string) | IndexError

  /** priority_ranges once sorted. */
  function Prioritize(ranges: Ranges, prefixes: seq<string>): (blocks: seq<Block>)
    ensures SortedByStart(blocks)
  {
    SortByStart(ClassBlocks(ranges.classes, prefixes)
                + MethodsBlocks(ranges.methods, PriorityNames(ranges.classes, prefixes)))
  }

  /** Every span ends inside a file of `n` lines. */
  ghost predicate SpansWithin(spans: seq<Span>, n: nat) {
    forall s :: s in spans ==> s.end < n
  }

  /** Every range the scan records lies inside the file. */
  lemma ScanWithin(info: seq<LineInfo>)
    ensures SpansWithin(ScanFrom(info, 0).classes, |info|)
    ensures SpansWithin(ScanFrom(info, 0).methods, |info|)
  {
    var r := ScanFrom(info, 0);
    ScanValid(info, 0);
    forall s | s in r.classes ensures s.end < |info| {
      var a :| 0 <= a < |r.classes| && r.classes[a] == s;
      assert IsClassRange(info, r.classes[a]);
    }
    forall s | s in r.methods ensures s.end < |info| {
      var a :| 0 <= a < |r.methods| && r.methods[a] == s;
      assert IsMethodsRange(info, r.methods[a]);
    }
  }

  /** Every priority block is a recorded range, so it lies inside the file. */
  lemma PrioritizeWithin(ranges: Ranges, prefixes: seq<string>, n: nat)
    requires SpansWithin(ranges.classes, n) && SpansWithin(ranges.methods, n)
    ensures Within(Prioritize(ranges, prefixes), n)
  {
    var blocks := ClassBlocks(ranges.classes, prefixes)
                  + MethodsBlocks(ranges.methods, PriorityNames(ranges.classes, prefixes));
    var sorted := Prioritize(ranges, prefixes);
    forall k | 0 <= k < |sorted| ensures sorted[k].span.end < n {
      assert sorted[k] in multiset(blocks);
      assert sorted[k] in blocks;
      ClassBlocksSpec(ranges.classes, prefixes, sorted[k]);
      MethodsBlocksSpec(ranges.methods, PriorityNames(ranges.classes, prefixes), sorted[k]);
    }
  }

  /** With no prefixes no class is priority, and so no methods block either. */
  lemma {:induction false} NoPrefixesNoClasses(classes: seq<Span>)
    ensures PriorityNames(classes, []) == [] && ClassBlocks(classes, []) == []
    decreases |classes|
  {
    if |classes| > 0 {
      NoPrefixesNoClasses(classes[..|classes| - 1]);
    }
  }

  lemma {:induction false} NoNamesNoMethods(methods: seq<Span>)
    ensures MethodsBlocks(methods, []) == []
    decreases |methods|
  {
    if |methods| > 0 {
      NoNamesNoMethods(methods[..|methods| - 1]);
    }
  }

  lemma NoPrefixesNoBlocks(ranges: Ranges)
    ensures Prioritize(ranges, []) == []
  {
    NoPrefixesNoClasses(ranges.classes);
    NoNamesNoMethods(ranges.methods);
  }

  /** The priority blocks of a file, sorted by start line. */
  function PriorityBlocks(lines: seq<string>, prefixes: seq<string>): (blocks: seq<Block>)
    ensures Within(blocks, |lines|)
  {
    ScanWithin(ClassifyAll(lines));
    PrioritizeWithin(ScanFrom(ClassifyAll(lines), 0), prefixes, |lines|);
    Prioritize(ScanFrom(ClassifyAll(lines), 0), prefixes)
  }

  /** What truncate_xml_to_lines hands to the XML library. */
  function Truncation(lines: seq<string>, maxLines: int, prefixes: seq<string>): Outcome {
    if |lines| == 0 then IndexError else Truncated(Concat(OutputLines(lines, maxLines, prefixes)))
  }

  /** output_lines of a non-empty file. */
  function OutputLines(lines: seq<string>, maxLines: int, prefixes: seq<string>): seq<string>
    requires |lines| > 0
  {
    Select(lines, Picked(|lines|, HeaderEnd(lines), PriorityBlocks(lines, prefixes), maxLines))
  }

  /** The script's steps in order, over the lines of the file. The budget
      defaults to 100 lines, and a missing prefix list to the empty one,
      as `priority_prefixes=None` becomes `[]`. */
  method TruncateXmlToLines(lines: seq<string>, maxLines: int := 100, prefixes: seq<string> := []) returns (r: Outcome)
    ensures r == Truncation(lines, maxLines, prefixes)
  {
    var classRanges, methodsRanges := ScanRanges(ClassifyAll(lines));
    var names, blocks := Categorize(classRanges, methodsRanges, prefixes);
    blocks := SortByStart(blocks);
    var headerEnd := FindHeaderEnd(lines);
    if |lines| == 0 {
      return IndexError;
    }
    assert blocks == PriorityBlocks(lines, prefixes);
    var output := Assemble(lines, headerEnd, blocks, maxLines);
    r := Truncated(Concat(output));
  }

  /** Without priority prefixes a file has no priority blocks. */
  lemma NoPriorityBlocks(lines: seq<string>)
    ensures PriorityBlocks(lines, []) == []
  {
    NoPrefixesNoBlocks(ScanFrom(ClassifyAll(lines), 0));
  }

  /** The output lines of a non-empty file, given its priority blocks. */
  lemma OutputLinesOf(lines: seq<string>, maxLines: int, prefixes: seq<string>, blocks: seq<Block>)
    requires |lines| > 0 && blocks == PriorityBlocks(lines, prefixes)
    ensures Within(blocks, |lines|)
    ensures OutputLines(lines, maxLines, prefixes) == Select(lines, Picked(|lines|, HeaderEnd(lines), blocks, maxLines))
  {
  }

  /** Without priority prefixes the output lines are a prefix of the file:
      the header and as many following lines as the budget allows. */
  lemma NoPrefixesIsPrefix(lines: seq<string>, maxLines: int)
    requires |lines| > 0
    ensures OutputLines(lines, maxLines, []) == lines[..Min(|lines|, Max(maxLines, HeaderEnd(lines) + 1))]
  {
    OutputLinesNoPrefixes(lines, maxLines);
    NoBlocksIsPrefix(lines, HeaderEnd(lines), maxLines);
  }

  /** Without priority prefixes the output is assembled from no blocks. */
  lemma OutputLinesNoPrefixes(lines: seq<string>, maxLines: int)
    requires |lines| > 0
    ensures OutputLines(lines, maxLines, []) == Select(lines, Picked(|lines|, HeaderEnd(lines), [], maxLines))
  {
    NoPriorityBlocks(lines);
    OutputLinesOf(lines, maxLines, [], []);
  }

  /** A non-empty file hands on the join of its output lines. */
  lemma TruncationOfLines(lines: seq<string>, maxLines: int, prefixes: seq<string>)
    requires |lines| > 0
    ensures Truncation(lines, maxLines, prefixes) == Truncated(Concat(OutputLines(lines, maxLines, prefixes)))
  {
  }

  /** Without priority prefixes, and with a budget that covers the header,
      the text handed on is that of the first-N truncation of
      app/truncate_xml.py. */
  lemma NoPrefixesMatchesFirstLines(lines: seq<string>, maxLines: int)
    requires |lines| > 0 && maxLines >= HeaderEnd(lines) + 1
    ensures Truncation(lines, maxLines, []) == Truncated(Concat(lines[..KeptCount(|lines|, maxLines)]))
  {
    assert Min(|lines|, Max(maxLines, HeaderEnd(lines) + 1)) == KeptCount(|lines|, maxLines);
    NoPrefixesIsPrefix(lines, maxLines);
    TruncationOfLines(lines, maxLines, []);
  }
}
