/** truncate_xml_to_lines of app/truncate_xml.py up to the joined text
    (lines 23-32): read the file line by line, stop at the budget, join. */
module FirstLines {
  import opened Text

  /** How many lines the read loop keeps: `i >= max_lines` stops it, and a
      budget of 0 or less keeps nothing. */
  function KeptCount(n: nat, maxLines: int): (k: nat)
    ensures k <= n && k <= Max(0, maxLines)
    ensures k == n || k == Max(0, maxLines)
  {
    Min(n, Max(0, maxLines))
  }

  /** The read loop with its early `break`, then `''.join(lines)`; the
      budget defaults to 100 lines. */
  method TruncateToFirstLines(file: seq<string>, maxLines: int := 100) returns (content: string)
    ensures content == Concat(file[..KeptCount(|file|, maxLines)])
    ensures |content| <= |Concat(file)| && Concat(file)[..|content|] == content
    ensures maxLines <= 0 ==> content == ""
    ensures maxLines >= |file| ==> content == Concat(file)
  {
    var lines: seq<string> := [];
    var i := 0;
    while i < |file|
      invariant i <= |file| && i <= Max(0, maxLines)
      invariant lines == file[..i]
    {
      if i >= maxLines {
        break;
      }
      lines := lines + [file[i]];
      i := i + 1;
    }
    content := Concat(lines);
    ConcatPrefix(file, i);
    assert file[..|file|] == file;
  }
}
