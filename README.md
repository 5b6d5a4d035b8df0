# A Dafny model of the `.sou` parsers, the XML truncators and the C integer helpers

The repository is a set of developer scripts around a code-ingestion pipeline.
This project models the parts whose behaviour is fully determined by their own
code:

- **Priority truncation** (`app/truncate_xml_new.py`, `truncate_xml_to_lines`).
  One pass over the file's lines records the line range of every closed
  `<class>` element with its last `<name>`, and of every closed `<methods>`
  element with its last `<class-id>`. Classes whose name starts with a priority
  prefix, and the methods blocks whose class-id equals such a name, become
  priority blocks, sorted by start line. The output is the header lines, then
  the priority blocks, then the remaining lines in file order. It stops at the
  line budget and never repeats a line. Modules `LineScan`, `OutputAssembly`
  and `PriorityTruncate`.
- **First-N truncation** (`app/truncate_xml.py`, `truncate_xml_to_lines`): the
  first `max_lines` lines of the file, joined. Module `FirstLines`.
- **`balance_xml_tags`**, which is the same code in both truncation scripts.
  It walks a stack of open tag names line by line: a line's opening tags are
  pushed left to right, then each of its closing tags pops the stack only when
  it names the top. Whatever stays open is closed innermost first, after a
  marker comment. Module `TagBalance`. Module `XmlTags` models the
  `re.finditer` scans of the opening and closing tag patterns exactly.
- **The `.sou` parsers**. `sou_parser.py` is driven by end events and module
  `SouParser` models it. `app/sou_parser_new.py` is driven by start events and
  module `SouParserNew` models it. Each is a generator with a single pending
  class record that yields TYPE and METHOD symbol records. Module `SouModel`
  holds the shared parts: the element and symbol records,
  `extract_class_name` and `parse_metadata`.
- **`app/math_utils.c`**: `add`, `subtract`, `multiply` and `divide` on C
  `int`. Module `MathUtils`.

Python's string operations (`strip`, `split`, `join`, `startswith`,
`endswith`, `in`) are in module `Text`. The imperative loops of the scripts
are methods whose `ensures` tie their result to a specification function.
The properties of the scripts are lemmas about those functions.

In both parsers a new `<class>` overwrites
the pending record without yielding it, and such a class is never yielded
(`SouParser.ClassSupplantsPending`).

The file reading, the XML library and the random ids are not modelled. They
become parameters:
- the truncators take the file as a `seq<string>` of lines, each with its
  line ending as `readlines()` keeps it;
- the parsers take the event stream as a sequence of `Event` records. Each
  record gives the element's tag, the `findtext` results of its `name`,
  `class-id` and `body` children, its `<body>` children (selector and text)
  and the serialisation of its children.

## Model

| member | source | states |
|---|---|---|
| `Text.Strip` | sou_parser.py:36 | `str.strip()`: the result is the slice of the input between the leading and the trailing whitespace, and neither of its ends is whitespace |
| `Text.StripIdempotent` | app/sou_parser_new.py:48 | stripping a stripped text changes nothing |
| `Text.Split` | app/truncate_xml.py:65 | `split('\n')` gives at least one piece, no piece holds the separator, and joining the pieces gives back the input |
| `Text.SplitJoin` | app/truncate_xml.py:103 | splitting a `'\n'`-join of separator-free pieces gives back the pieces |
| `Text.ConcatPrefix` | app/truncate_xml.py:32 | the `''.join` of the first k lines is a prefix of the join of all lines |
| `XmlTags.OpenMatchAt` | app/truncate_xml.py:77-78 | a match of the opening-tag pattern starts with `<`, ends with `>`, and captures a name `[a-zA-Z][\w-]*` |
| `XmlTags.OpenMatchAtIff` | app/truncate_xml.py:77-78 | the attempt at position `i` returns group `g` and end `j` exactly when `OpenAt` holds: `<`, the longest name `g`, a `[^/>]*` run, then `>` not preceded by `/` |
| `XmlTags.OpenGreedy` | app/truncate_xml.py:77-78 | whenever the opening pattern can match at `i` with any name length, the greedy longest-name match exists and ends at the same place, so backtracking adds nothing and the look-behind never fails |
| `XmlTags.CloseMatchAt` | app/truncate_xml.py:90-91 | a match of the closing-tag pattern is exactly `</` + name + `>` |
| `XmlTags.CloseMatchAtIff` | app/truncate_xml.py:90-91 | the attempt at position `i` returns group `g` and end `j` exactly when `CloseAt` holds: `</`, a name `g`, then `>` |
| `XmlTags.MatchAtNone` | app/truncate_xml.py:77-91 | an attempt that fails at `i` means that no match of that pattern starts at `i`, and an attempt that succeeds means that one does |
| `XmlTags.TagsFrom` | app/truncate_xml.py:78-92 | every tag name that the opening and closing scans of a line report is a well-formed tag name |
| `XmlTags.FindIterTags` | app/truncate_xml.py:78-92 | any sequence of matches that a leftmost search reports has exactly the names that `TagsFrom` lists. Such a search takes the first position with a match, resumes at that match's end, and finds nothing after the last match |
| `XmlTags.TagsFromFindIter` | app/truncate_xml.py:78-92 | the names `TagsFrom` lists are those of such a leftmost search, so the search result exists and is unique |
| `XmlTags.CloserLineTags` | app/truncate_xml.py:101 | the appended line `</t>` holds no opening tag and exactly one closing tag `t` |
| `TagBalance.PopMatching` | app/truncate_xml.py:90-94 | a line's closing tags only pop: the stack that remains is a prefix of the one before |
| `TagBalance.PushOpenings` | app/truncate_xml_new.py:189-194 | a line's opening tags are pushed in left-to-right order |
| `TagBalance.PopClosings` | app/truncate_xml_new.py:202-206 | the loop over closing tags pops only when the tag equals the top, and leaves the stack unchanged otherwise |
| `TagBalance.Closers` | app/truncate_xml.py:97-101 | one `</tag>` line per open tag, the k-th naming the k-th tag from the top (innermost first) |
| `TagBalance.CloseAll` | app/truncate_xml_new.py:209-213 | popping the leftover stack appends exactly the closers, innermost first |
| `TagBalance.StepLine` | app/truncate_xml.py:77-94 | no contract; the stack after one line: the line's opening tags pushed in order, then its closing tags applied with `PopMatching` |
| `TagBalance.OpenAfter` | app/truncate_xml.py:69-94 | no contract; the stack after the given lines, one `StepLine` per line from the first |
| `TagBalance.BalancedLines` | app/truncate_xml.py:65-101 | no contract; the input lines unchanged, then, when tags stay open, the marker line and one closer per open tag, innermost first |
| `TagBalance.Balance` | app/truncate_xml.py:65-103 | no contract; `split('\n')`, `BalancedLines`, then `'\n'.join`. Its properties are `BalanceKeepsInput`, `OutputClosesAll` and `BalanceIdempotent` |
| `TagBalance.BalanceXmlTags` | app/truncate_xml.py:55-103 | the line loop, the stack and the closing loop compute the balanced text (the same function is at app/truncate_xml_new.py:167-215) |
| `TagBalance.BalanceKeepsInput` | app/truncate_xml.py:65-103 | the output starts with the whole input unchanged; with no tag left open it is exactly the input |
| `TagBalance.OpenAfterBound` | app/truncate_xml.py:77-94 | the stack never holds more tags than it started with plus the opening tags seen |
| `TagBalance.ClosersBound` | app/truncate_xml_new.py:177-215 | the output has at most one marker line plus one closer per opening-tag match more than the input |
| `TagBalance.OpenAfterNames` | app/truncate_xml_new.py:189-194 | every tag left open is a well-formed tag name |
| `TagBalance.ClosersEmptyStack` | app/truncate_xml_new.py:208-213 | walking the appended closers pops the whole leftover stack, LIFO |
| `TagBalance.OutputClosesAll` | app/truncate_xml.py:97-101 | walking the balanced output line by line ends with no tag open |
| `TagBalance.BalanceIdempotent` | app/truncate_xml_new.py:167-215 | balancing the output of a balance changes nothing |
| `FirstLines.KeptCount` | app/truncate_xml.py:26-28 | the read loop keeps no more than n lines and no more than max(0, max_lines), and stops only at one of the two: min(n, max(0, max_lines)) |
| `FirstLines.TruncateToFirstLines` | app/truncate_xml.py:12-32 | the text is the join of the first min(n, max_lines) lines (max_lines 100 by default), a prefix of the whole file's text; empty for max_lines <= 0; the whole file when it fits |
| `LineScan.OpensClass` | app/truncate_xml_new.py:45 | no contract; `re.search(r'<class[>\s]', line)`: `<class` followed by `>` or a Python whitespace character, at some position of the line |
| `LineScan.ClosesClass` | app/truncate_xml_new.py:61 | no contract; the substring test `'</class>' in line` |
| `LineScan.OpensMethods` | app/truncate_xml_new.py:69 | no contract; the substring test `'<methods>' in line` |
| `LineScan.ClosesMethods` | app/truncate_xml_new.py:81 | no contract; the substring test `'</methods>' in line` |
| `LineScan.NameOn` | app/truncate_xml_new.py:53-57 | no contract; when the line holds `<name>`, the `re.search` group of `<name>([^<]+)</name>` (see `Capture`), else nothing |
| `LineScan.ClassIdOn` | app/truncate_xml_new.py:76-79 | no contract; when the line holds `<class-id>`, the `re.search` group of `<class-id>([^<]+)</class-id>`, else nothing |
| `LineScan.Classify` | app/truncate_xml_new.py:45-81 | no contract; the four line tests and the two captures that the pass looks at on one line |
| `LineScan.ClassifyAll` | app/truncate_xml_new.py:41-42 | one summary per line of the file, the k-th being `Classify` of the k-th line |
| `LineScan.TextRun` | app/truncate_xml_new.py:55 | the greedy `[^<]*` run stops at the first `<` |
| `LineScan.Capture` | app/truncate_xml_new.py:55-57 | `re.search`'s group 1: taken at the leftmost position where `<name>` (or `<class-id>`), a non-empty run without `<` and the closing tag match, and None exactly when they match nowhere on the line |
| `LineScan.CaptureAtRun` | app/truncate_xml_new.py:55-57 | a match at a position has as group 1 the greedy run after the opening tag, up to the next `<`, followed by the closing tag |
| `LineScan.CaptureAtUnique` | app/truncate_xml_new.py:55-57 | at one position the pattern has at most one group 1, so backtracking cannot change the capture |
| `LineScan.LastField` | app/truncate_xml_new.py:53-57 | the recorded label is the capture of the last line of the range that has one, later captures overwriting earlier ones, and None exactly when no line of the range has one |
| `LineScan.Depth` | app/truncate_xml_new.py:48-62 | no contract; `class_depth` after walking from the class's start line to line j: 1, plus one per later line that opens a class, minus one per later line that closes one |
| `LineScan.ClassEnd` | app/truncate_xml_new.py:52-66 | the class inner loop ends at a line at or after where it resumed |
| `LineScan.MethodsEnd` | app/truncate_xml_new.py:75-84 | the methods inner loop ends at a line at or after where it resumed |
| `LineScan.ScanFrom` | app/truncate_xml_new.py:40-86 | no contract; the ranges the outer loop records from line i: a class range for each closed class, a methods range for each closed methods element, an unclosed one ending the walk. Its properties are `ScanValid`, `ScanOrdered` and `ScanStartsFrom` |
| `LineScan.FindClassEnd` | app/truncate_xml_new.py:46-66 | the depth-counting loop finds the closing line and the last name, or reaches the end of the file without recording |
| `LineScan.FindMethodsEnd` | app/truncate_xml_new.py:70-84 | the loop finds the first `</methods>` line and the last class-id, or reaches the end of the file without recording |
| `LineScan.ScanRanges` | app/truncate_xml_new.py:40-86 | the outer loop with its manual index records exactly the ranges of the scan function |
| `LineScan.ClassEndSpec` | app/truncate_xml_new.py:52-66 | the class loop stops exactly where the depth first returns to 0, on a `</class>` line, with the last name on lines start+1..end; an unclosed class keeps the depth positive to the end |
| `LineScan.MethodsEndSpec` | app/truncate_xml_new.py:75-84 | the methods loop stops at the first line holding `</methods>`, with the last class-id on lines start+1..end |
| `LineScan.ClassRangeFound` | app/truncate_xml_new.py:45-65 | a recorded class range has start < end, opens a class on its start line and closes it to depth 0 on its end line |
| `LineScan.MethodsRangeFound` | app/truncate_xml_new.py:69-83 | a recorded methods range has start < end, holds `<methods>` on its start line and first `</methods>` on its end line |
| `LineScan.ScanStartsFrom` | app/truncate_xml_new.py:41-86 | every range recorded from line i on starts at or after i |
| `LineScan.ScanValid` | app/truncate_xml_new.py:40-86 | every recorded range is a genuine class or methods range; unclosed elements are not recorded |
| `LineScan.ScanOrdered` | app/truncate_xml_new.py:40-86 | class ranges and methods ranges come in increasing start order and no two ranges share a line |
| `OutputAssembly.Range` | app/truncate_xml_new.py:120-122 | the header indices are 0..header_end in order |
| `OutputAssembly.Select` | app/truncate_xml_new.py:130-140 | the output lines are the input lines at the chosen indices, in the chosen order |
| `OutputAssembly.Picked` | app/truncate_xml_new.py:108-141 | the chosen indices are distinct lines of the file |
| `OutputAssembly.Assemble` | app/truncate_xml_new.py:108-141 | the three loops over `output_lines` and `used_lines` produce the lines of the chosen indices |
| `OutputAssembly.AddSpan` | app/truncate_xml_new.py:128-133 | no contract; the lines `range(start, end + 1)` of one block appended when not yet used, stopping once the budget is reached |
| `OutputAssembly.AddBlocks` | app/truncate_xml_new.py:125-133 | no contract; `AddSpan` for each priority block in turn, skipping the rest once the budget is reached |
| `OutputAssembly.AddRest` | app/truncate_xml_new.py:136-141 | no contract; the unused lines from i to the end of the file appended in order, stopping at the budget |
| `OutputAssembly.AddSpanKeeps` | app/truncate_xml_new.py:128-133 | a block only appends lines not already used |
| `OutputAssembly.AddBlocksKeeps` | app/truncate_xml_new.py:125-133 | the priority loop only appends lines not already used |
| `OutputAssembly.AddRestKeeps` | app/truncate_xml_new.py:136-141 | the remaining-lines loop only appends lines not already used |
| `OutputAssembly.AddSpanBound` | app/truncate_xml_new.py:128-133 | a block entered below the budget stops at the budget and adds at most its own lines |
| `OutputAssembly.AddBlocksBound` | app/truncate_xml_new.py:124-133 | the priority loop never takes the output past the budget |
| `OutputAssembly.AddRestBound` | app/truncate_xml_new.py:136-138 | the remaining-lines loop never takes the output past the budget |
| `OutputAssembly.AddSpanCovers` | app/truncate_xml_new.py:128-131 | a block that fits in the budget is copied whole |
| `OutputAssembly.AddSpanFrom` | app/truncate_xml_new.py:128-133 | the lines one block appends lie in its span |
| `OutputAssembly.AddBlocksFrom` | app/truncate_xml_new.py:125-133 | every line the priority loop appends lies in the span of some priority block |
| `OutputAssembly.AddBlocksCovers` | app/truncate_xml_new.py:125-133 | when all priority blocks fit in the budget, every line of every one is in the output |
| `OutputAssembly.AddRestCovers` | app/truncate_xml_new.py:136-141 | if the budget is never reached, every remaining line is in the output |
| `OutputAssembly.AddRestAscending` | app/truncate_xml_new.py:136-141 | the remaining lines are appended in increasing file order |
| `OutputAssembly.AddRestFromPrefix` | app/truncate_xml_new.py:136-141 | after a prefix of the file, the loop continues it up to min(n, max_lines) lines |
| `OutputAssembly.AssemblySpec` | app/truncate_xml_new.py:110-141 | the header comes first even past the budget; the lines after it, up to the end of the priority loop, all lie in priority blocks; at most max(max_lines, header_end+1) lines; fitting priority blocks are all kept; under the budget every line is kept; the tail is in file order |
| `OutputAssembly.NoBlocksIsPrefix` | app/truncate_xml_new.py:119-141 | with no priority blocks the output is the first min(n, max(max_lines, header_end+1)) lines |
| `PriorityTruncate.IsPriority` | app/truncate_xml_new.py:94 | no contract; a class name that is present, non-empty and starts with one of the prefixes |
| `PriorityTruncate.PriorityNames` | app/truncate_xml_new.py:93-95 | no contract; the names of the recorded classes with `IsPriority`, in order |
| `PriorityTruncate.ClassBlocks` | app/truncate_xml_new.py:93-96 | no contract; a class block for each recorded class with `IsPriority`, in order |
| `PriorityTruncate.MethodsBlocks` | app/truncate_xml_new.py:101-103 | no contract; a methods block for each recorded methods range whose class-id is among the priority names, in order |
| `PriorityTruncate.PriorityNamesSpec` | app/truncate_xml_new.py:93-95 | `priority_class_names` holds exactly the names of recorded classes that start with some prefix |
| `PriorityTruncate.ClassBlocksSpec` | app/truncate_xml_new.py:93-96 | the class entries of `priority_ranges` are exactly the recorded classes with a prefixed name |
| `PriorityTruncate.MethodsBlocksSpec` | app/truncate_xml_new.py:101-103 | the methods entries are exactly the methods ranges whose class-id is a priority name; a missing class-id never is |
| `PriorityTruncate.Categorize` | app/truncate_xml_new.py:88-103 | the two categorizing loops build those names and blocks |
| `PriorityTruncate.CategorizeSpec` | app/truncate_xml_new.py:93-103 | a block is priority iff it is a prefixed class or a methods range whose class-id equals the name of a prefixed class |
| `PriorityTruncate.InsertByStart` | app/truncate_xml_new.py:106 | insertion adds the one block and loses none |
| `PriorityTruncate.InsertSorted` | app/truncate_xml_new.py:106 | inserting keeps the blocks sorted by start line |
| `PriorityTruncate.SortByStart` | app/truncate_xml_new.py:106 | the sort is a permutation sorted by start line |
| `PriorityTruncate.IsHeaderLine` | app/truncate_xml_new.py:115 | no contract; the line has `<` followed by an ASCII letter and does not contain `<?xml` |
| `PriorityTruncate.HeaderEndFrom` | app/truncate_xml_new.py:113-117 | the header scan from any line yields 0 or a line at or after it |
| `PriorityTruncate.HeaderEnd` | app/truncate_xml_new.py:113-117 | header_end is 0 or a line of the file |
| `PriorityTruncate.HeaderEndSpec` | app/truncate_xml_new.py:113-117 | header_end is the first line with `<` and a letter and without `<?xml`, or 0 when there is none |
| `PriorityTruncate.FindHeaderEnd` | app/truncate_xml_new.py:113-117 | the loop with its `break` computes header_end |
| `PriorityTruncate.Prioritize` | app/truncate_xml_new.py:88-106 | the priority blocks are sorted by start line |
| `PriorityTruncate.ScanWithin` | app/truncate_xml_new.py:64-82 | every recorded range lies inside the file |
| `PriorityTruncate.PrioritizeWithin` | app/truncate_xml_new.py:93-106 | every priority block lies inside the file |
| `PriorityTruncate.NoPrefixesNoClasses` | app/truncate_xml_new.py:93-98 | with no prefixes no class is priority |
| `PriorityTruncate.NoNamesNoMethods` | app/truncate_xml_new.py:101-103 | with no priority names no methods block is priority |
| `PriorityTruncate.NoPrefixesNoBlocks` | app/truncate_xml_new.py:88-106 | with no prefixes there are no priority blocks |
| `PriorityTruncate.PriorityBlocks` | app/truncate_xml_new.py:40-106 | the priority blocks of a file lie inside it |
| `PriorityTruncate.OutputLines` | app/truncate_xml_new.py:108-141 | no contract; the lines of a non-empty file that the three output loops choose, in the order they are appended |
| `PriorityTruncate.Truncation` | app/truncate_xml_new.py:108-144 | no contract; an IndexError for an empty file (the header loop reads line 0), otherwise `''.join` of `OutputLines` |
| `PriorityTruncate.TruncateXmlToLines` | app/truncate_xml_new.py:12-144 | the script's steps in order give the joined output text, or the IndexError an empty file raises; max_lines defaults to 100 and a missing prefix list to the empty one |
| `PriorityTruncate.NoPriorityBlocks` | app/truncate_xml_new.py:28-29 | an empty prefix list yields no priority blocks for any file |
| `PriorityTruncate.NoPrefixesIsPrefix` | app/truncate_xml_new.py:119-141 | with an empty prefix list the output lines are exactly the first min(n, max(max_lines, header_end+1)) lines, in order |
| `PriorityTruncate.NoPrefixesMatchesFirstLines` | app/truncate_xml_new.py:108-144 | with no prefixes and a budget covering the header, the text equals that of the first-N truncation of app/truncate_xml.py |
| `SouModel.TagOf` | sou_parser.py:18-19 | no contract; which of `class`, `comment` and `methods` an element's tag is, or none of them |
| `SouModel.ExtractClassName` | sou_parser.py:86-87 | the result is the text after the last `.`, or the whole string when there is none; it holds no `.` |
| `SouModel.JoinLast` | app/sou_parser_new.py:77 | the last piece of a split ends the text, right after a separator |
| `SouModel.ExtractClassNameIdempotent` | app/sou_parser_new.py:76-77 | shortening a shortened name changes nothing |
| `SouModel.ClassRecord` | sou_parser.py:20-31 | a class record is a TYPE named by the extracted class name, a dot-free suffix of the full name, whose body is the stripped inner XML and whose comment is empty |
| `SouModel.SelectorText` | sou_parser.py:55 | no contract; the selector as the f-string prints it: its text, or `"None"` when the attribute is missing |
| `SouModel.MethodRecord` | sou_parser.py:54-60 | no contract; the METHOD record of one `<body>`; its properties are stated by `MethodRecordName` |
| `SouModel.MethodRecordName` | sou_parser.py:54-60 | a METHOD record is named `<class>.<selector>`, has the stripped body text (or `""`) as its body and an empty comment |
| `SouModel.MethodRecords` | app/sou_parser_new.py:43-50 | one METHOD record per `<body>`, in document order |
| `SouModel.MergeComment` | sou_parser.py:34-36 | the stripped comment body is merged iff the class-id's last component ends with the pending name; nothing else changes |
| `SouModel.CountOf` | sou_parser.py:38 | a count of records of one type is at most the number of records |
| `SouModel.CountOfAppend` | sou_parser.py:53 | counts add up over concatenation |
| `SouModel.MethodRecordsCount` | sou_parser.py:52-53 | a methods element yields as many METHOD records as it has bodies, and no TYPE record |
| `SouModel.ParseMetadata` | sou_parser.py:71-83 | the loops collect exactly the metadata set of the elements |
| `SouModel.Metadata` | app/sou_parser_new.py:61-73 | no contract; the union, over the `<methods>` elements, of `class-id.selector` for each body whose class-id and selector are both non-empty |
| `SouModel.MetadataSpec` | app/sou_parser_new.py:61-73 | a name is collected iff some `<methods>` element has a non-empty class-id, not shortened, and a body with a non-empty selector that spell it |
| `SouParser.StepOf` | sou_parser.py:16-68 | no contract; one event's change of state and the records it yields, or the exception it raises; its properties are the step lemmas below |
| `SouParser.RunFrom` | sou_parser.py:16-68 | no contract; the steps applied in order from a state, collecting the records, stopping at the first exception, with the state it stopped in |
| `SouParser.Parse` | sou_parser.py:9-68 | no contract; `RunFrom` from no pending class, no class name and zero counters |
| `SouParser.StepCounts` | sou_parser.py:16-61 | each event keeps the pending record a TYPE and raises each counter by what it yields |
| `SouParser.RunCounts` | sou_parser.py:12-61 | `types_count` and `methods_count` equal the numbers of TYPE and METHOD records yielded |
| `SouParser.EmitMethods` | sou_parser.py:52-61 | the body loop yields one METHOD record per body and counts each |
| `SouParser.HandleEvent` | sou_parser.py:16-68 | one loop iteration does what the step function says, including the raised error |
| `SouParser.ParseEvents` | sou_parser.py:9-68 | the generator yields the records of the parse, stops at the first exception, and its counters count TYPE and METHOD records |
| `SouModel.RelevantOnly` | sou_parser.py:18 | the events a parser acts on are exactly those of its kind (end events here, start events at app/sou_parser_new.py:16) for `<class>`, `<comment>` and `<methods>` elements, and no more of them than there are events. Their order and multiplicity are fixed by `RelevantOnlyOne` and `RelevantOnlyAppend` |
| `SouModel.RelevantOnlyOne` | sou_parser.py:18 | a single event is kept exactly when it is of the parser's kind and for one of the three elements |
| `SouModel.RelevantOnlyAppend` | sou_parser.py:18 | the events kept from a concatenation are those kept from each part, in order. With `RelevantOnlyOne` this fixes the order and multiplicity of what `RelevantOnly` keeps |
| `SouParser.IrrelevantEventsIgnored` | sou_parser.py:16-18 | start events and other tags change neither state nor output |
| `SouParser.CommentEnds` | sou_parser.py:33 | comment end events are counted among the events |
| `SouParser.TypesAtMostComments` | sou_parser.py:19-42 | TYPE records are yielded only by comment end events, at most one each |
| `SouParser.ClassStep` | sou_parser.py:19-31 | a class end event makes its fresh TYPE record pending and yields nothing |
| `SouParser.CommentStep` | sou_parser.py:33-42 | a comment end event with a pending class yields it, merged, and clears it |
| `SouParser.CommentWithoutPending` | sou_parser.py:33-68 | a comment end event with no pending class yields nothing and changes no state |
| `SouParser.MethodsStep` | sou_parser.py:44-61 | a methods end event with a class-id yields its METHOD records and counts them |
| `SouParser.ClassSupplantsPending` | sou_parser.py:19-41 | from any parser state, a second class before any comment overwrites the first, which is never yielded, and the comment yields the second, merged |
| `SouParser.ClassCommentMethods` | sou_parser.py:9-61 | a class, its comment and its methods yield one TYPE record with the comment, then one METHOD record per body |
| `SouParserNew.StepOf` | app/sou_parser_new.py:15-58 | no contract; one start event's change of the pending record and the records it yields, or the exception it raises |
| `SouParserNew.RunFrom` | app/sou_parser_new.py:15-58 | no contract; the steps applied in order from a pending record, collecting the records, stopping at the first exception |
| `SouParserNew.Parse` | app/sou_parser_new.py:10-58 | no contract; `RunFrom` from no pending record |
| `SouParserNew.HandleEvent` | app/sou_parser_new.py:15-58 | one loop iteration does what the step function says, including the error of a missing class-id |
| `SouParserNew.EmitMethods` | app/sou_parser_new.py:43-51 | the body loop yields one METHOD record per body, in order |
| `SouParserNew.ParseEvents` | app/sou_parser_new.py:10-58 | the generator yields the records of the parse and stops at the first exception |
| `SouParserNew.IrrelevantEventsIgnored` | app/sou_parser_new.py:15-16 | end events and other tags change neither the pending record nor the output |
| `SouParserNew.PendingTransitions` | app/sou_parser_new.py:17-38 | a class replaces the pending record without yielding; a comment yields the merged pending record and clears it, or yields nothing when none is pending |
| `SouParserNew.StepAgrees` | app/sou_parser_new.py:16-58 | on an element with a class-id where needed, the start step acts as the older parser's end step |
| `SouParserNew.AgreesWithOldParser` | app/sou_parser_new.py:10-58 | over sibling elements (the old parser fed their end events, the new one their start events) with class-ids present, the two parsers yield records with the same name, kind, body and comment and stop with the same error; the kind is compared as TYPE/METHOD, not as the old parser's string or the new parser's enum member |
| `SouParserNew.ParsersAgree` | app/sou_parser_new.py:10-58 | from the start of a parse over sibling elements whose methods elements all have a class-id, the two parsers give the same outcome, with the kind compared as TYPE/METHOD |
| `SouParserNew.NestedCommentDiffers` | app/sou_parser_new.py:15-38 | a `<comment>` nested in its `<class>` makes the old parser yield nothing and the new parser yield the class record, merged: the agreement holds only for siblings |
| `SouParserNew.MissingClassIdDiffers` | app/sou_parser_new.py:40-41 | a missing class-id stops the new parser; the old one reuses the last class name, or stops only when it has bodies to name |
| `SouParserNew.Observed` | app/sou_parser_new.py:15 | the events of a sequence of elements, in order |
| `MathUtils.Add` | app/math_utils.c:3-5 | the exact sum, for operands whose sum fits in `int` |
| `MathUtils.Subtract` | app/math_utils.c:7-9 | the exact difference, for operands whose difference fits in `int` |
| `MathUtils.Multiply` | app/math_utils.c:11-13 | the exact product, for operands whose product fits in `int` |
| `MathUtils.Divide` | app/math_utils.c:15-19 | 0 for a zero divisor; otherwise the quotient times the divisor is the dividend |
| `MathUtils.SubtractUndoesAdd` | app/math_utils.c:3-9 | subtracting what was added gives back the first operand |
| `MathUtils.AddUndoesSubtract` | app/math_utils.c:3-9 | adding what was subtracted gives back the first operand |
| `MathUtils.Commutative` | app/math_utils.c:3-13 | `add` and `multiply` do not depend on operand order |
| `MathUtils.DivideUndoesMultiply` | app/math_utils.c:11-19 | dividing a product by a nonzero factor gives the other factor |
| `MathUtils.DivideZero` | app/math_utils.c:15-19 | `divide` yields zero exactly when the dividend or the divisor is zero |

## Left out

- app/QueryTime.py and app/CreateIndexes.py: graph-database client calls, fixed Cypher text, wall-clock timing and printing. Their idempotence lives in the database.
- The XML library's strict parse, recovery parse and pretty-print in both truncators (app/truncate_xml.py:34-52, app/truncate_xml_new.py:146-164). The model stops at the joined text that is handed to them; `balance_xml_tags` is modelled as a function of its own.
- `main` of both truncators, file reading and writing, `os.path` handling and `sys.exit`.
- How the XML events are produced: `iterparse` streaming, `elem.clear()`, and whether lxml has parsed an element's children at its start event. The parsers take the events as given records.
- The `uuid.uuid4()` ids of the symbol records, which are random, and the `print` in the old parser's `except` branch.
- The statistics script at the bottom of sou_parser.py (a hard-coded path, printing, float averages).
- `\w` of Python's regular expressions is taken on ASCII letters, digits and `_`. A non-ASCII letter inside a tag name is not modelled.
- The `'?xml'`/`'!--'` filter in `balance_xml_tags` is not modelled, because no name the opening pattern captures can equal them. The self-closing-tag loop has an empty body and is not modelled either.
- MathUtils.Divide: the quotient is an exact rational, so the rounding of the C `double` result is not modelled.
- MathUtils.Add: C signed overflow is undefined behaviour, so the model requires the exact sum to fit in 32 bits and says nothing about other operands.
- MathUtils.Subtract: likewise, it requires the exact difference to fit in 32 bits.
- MathUtils.Multiply: likewise, it requires the exact product to fit in 32 bits.
- SouParserNew.AgreesWithOldParser: the old parser's `"type"` is the string `"SymbolType.TYPE"` or `"SymbolType.METHOD"` (sou_parser.py:27,56), the new parser's the member of an imported `SymbolType` enum that is not part of this model (app/sou_parser_new.py:1,25,46); both are modelled as one `SymbolType` kind, so the records agree only up to that representation.
- SouParserNew.AgreesWithOldParser: the events are those of sibling elements, each element's start and end taken together; for elements nested in one another the two parsers see the events in a different order and can part, as SouParserNew.NestedCommentDiffers shows, and no agreement is stated for such documents.
- SouParserNew.ParsersAgree: the same two limits as SouParserNew.AgreesWithOldParser.
- `balance_xml_tags` does not make the text well-formed, and no such property is stated: a closing tag that does not match the top of the stack is skipped and stays in place, so `<a><b></a>` becomes `<a><b></a>`, an empty line, the marker comment, then `</b>` and `</a>`: both tags get closers, but the `</a>` on the first line still closes `a` inside `b`. The model states what the script does, that every tag it left open gets one closer, innermost first.
