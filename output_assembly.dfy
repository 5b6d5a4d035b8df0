/** The output assembly of truncate_xml_to_lines in app/truncate_xml_new.py
    (lines 108-141): which input lines are copied to the output, and in which
    order. The header lines come first, then the lines of the priority blocks,
    then the remaining lines in file order, under a line budget and never
    twice. The choice is described by the list of chosen line indices. */
module OutputAssembly {
  import opened Text
  import opened LineScan

  /** Whether a priority block is a <class> range or a <methods> range. */
  datatype Kind = ClassBlock | MethodsBlock

  /** One entry of priority_ranges. */
  datatype Block = Block(kind: Kind, span: Span)

  /** No index is chosen twice. */
  ghost predicate Distinct(p: seq<nat>) {
    forall a, b :: 0 <= a < b < |p| ==> p[a] != p[b]
  }

  /** Every chosen index is a line of a file with `n` lines. */
  predicate Below(p: seq<nat>, n: nat) {
    forall k :: 0 <= k < |p| ==> p[k] < n
  }

  ghost predicate Increasing(p: seq<nat>) {
    forall a, b :: 0 <= a < b < |p| ==> p[a] < p[b]
  }

  /** The indices lo, lo+1, ..., hi-1. */
  function Range(lo: nat, hi: nat): (r: seq<nat>)
    requires lo <= hi
    ensures |r| == hi - lo
    ensures forall k :: 0 <= k < |r| ==> r[k] == lo + k
  {
    seq(hi - lo, k requires 0 <= k < hi - lo => lo + k)
  }

  /** The lines at the chosen indices, in the chosen order. */
  function Select(lines: seq<string>, p: seq<nat>): (out: seq<string>)
    requires Below(p, |lines|)
    ensures |out| == |p|
    ensures forall k :: 0 <= k < |p| ==> out[k] == lines[p[k]]
  {
    seq(|p|, k requires 0 <= k < |p| => lines[p[k]])
  }

  /** Number of lines of `range(start, end + 1)`. */
  function Size(s: Span): nat {
    if s.start <= s.end then s.end - s.start + 1 else 0
  }

  function TotalSize(blocks: seq<Block>): nat {
    if |blocks| == 0 then 0 else Size(blocks[0].span) + TotalSize(blocks[1..])
  }

  /** The inner loop over one block, resumed at line `i`: each unused line is
      appended, and the loop stops as soon as the budget is reached. */
  function AddSpan(picked: seq<nat>, i: nat, end: nat, maxLines: int): seq<nat>
    decreases end + 1 - i
  {
    if i > end then picked
    else if i in picked then AddSpan(picked, i + 1, end, maxLines)
    else if |picked| + 1 >= maxLines then picked + [i]
    else AddSpan(picked + [i], i + 1, end, maxLines)
  }

  /** The loop over the sorted priority blocks: a block is entered only while
      the budget is not yet reached. */
  function AddBlocks(picked: seq<nat>, blocks: seq<Block>, maxLines: int): seq<nat>
    decreases |blocks|
  {
    if |blocks| == 0 || |picked| >= maxLines then picked
    else AddBlocks(AddSpan(picked, blocks[0].span.start, blocks[0].span.end, maxLines), blocks[1..], maxLines)
  }

  /** The loop over the remaining lines, resumed at line `i` of `n`. */
  function AddRest(picked: seq<nat>, i: nat, n: nat, maxLines: int): seq<nat>
    decreases n - i
  {
    if i >= n || |picked| >= maxLines then picked
    else if i in picked then AddRest(picked, i + 1, n, maxLines)
    else AddRest(picked + [i], i + 1, n, maxLines)
  }

  /** Every block lies inside a file of `n` lines. */
  predicate Within(blocks: seq<Block>, n: nat) {
    forall k :: 0 <= k < |blocks| ==> blocks[k].span.end < n
  }

  /** The indices of the output lines: lines 0..header_end, then the priority
      blocks, then the rest. Each line of the file is chosen at most once. */
  function Picked(n: nat, headerEnd: nat, blocks: seq<Block>, maxLines: int): (p: seq<nat>)
    requires headerEnd < n && Within(blocks, n)
    ensures Distinct(p) && Below(p, n)
  {
    var header := Range(0, headerEnd + 1);
    var withBlocks := AddBlocks(header, blocks, maxLines);
    AddBlocksKeeps(header, blocks, maxLines, n);
    var p := AddRest(withBlocks, headerEnd + 1, n, maxLines);
    AddRestKeeps(withBlocks, headerEnd + 1, n, maxLines);
    p
  }

  /** The imperative assembly: `output_lines` and `used_lines` change under
      the budget checks, exactly as the three loops of the script do. */
  method Assemble(lines: seq<string>, headerEnd: nat, blocks: seq<Block>, maxLines: int)
    returns (output: seq<string>)
    requires headerEnd < |lines| && Within(blocks, |lines|)
    ensures output == Select(lines, Picked(|lines|, headerEnd, blocks, maxLines))
  {
    ghost var picked: seq<nat> := [];
    output := [];
    var used: set<nat> := {};
    var i := 0;
    while i < headerEnd + 1
      invariant i <= headerEnd + 1
      invariant picked == Range(0, i)
      invariant output == Select(lines, picked)
      invariant forall x :: x in used <==> x in picked
    {
      output := output + [lines[i]];
      used := used + {i};
      picked := picked + [i];
      i := i + 1;
    }
    ghost var header := picked;
    var j := 0;
    while j < |blocks|
      invariant j <= |blocks|
      invariant Below(picked, |lines|)
      invariant AddBlocks(picked, blocks[j..], maxLines) == AddBlocks(header, blocks, maxLines)
      invariant output == Select(lines, picked)
      invariant forall x :: x in used <==> x in picked
    {
      if |output| >= maxLines {
        break;
      }
      var start, end := blocks[j].span.start, blocks[j].span.end;
      ghost var before := picked;
      var k := start;
      while k <= end
        invariant Below(picked, |lines|)
        invariant AddSpan(picked, k, end, maxLines) == AddSpan(before, start, end, maxLines)
        invariant output == Select(lines, picked)
        invariant forall x :: x in used <==> x in picked
        decreases end + 1 - k
      {
        if k !in used {
          output := output + [lines[k]];
          used := used + {k};
          picked := picked + [k];
          if |output| >= maxLines {
            break;
          }
        }
        k := k + 1;
      }
      assert blocks[j..][1..] == blocks[j + 1..];
      j := j + 1;
    }
    ghost var withBlocks := picked;
    i := headerEnd + 1;
    while i < |lines|
      invariant headerEnd + 1 <= i <= |lines|
      invariant Below(picked, |lines|)
      invariant AddRest(picked, i, |lines|, maxLines) == AddRest(withBlocks, headerEnd + 1, |lines|, maxLines)
      invariant output == Select(lines, picked)
      invariant forall x :: x in used <==> x in picked
    {
      if |output| >= maxLines {
        break;
      }
      if i !in used {
        output := output + [lines[i]];
        used := used + {i};
        picked := picked + [i];
      }
      i := i + 1;
    }
  }

  /** Appending only: the lines chosen before a block are still chosen, in
      the same places, and no line is chosen twice. */
  lemma {:induction false} AddSpanKeeps(picked: seq<nat>, i: nat, end: nat, maxLines: int, n: nat)
    requires Distinct(picked) && Below(picked, n) && end < n
    ensures var r := AddSpan(picked, i, end, maxLines);
            picked <= r && Distinct(r) && Below(r, n)
    decreases end + 1 - i
  {
    if i <= end {
      if i in picked {
        AddSpanKeeps(picked, i + 1, end, maxLines, n);
      } else if |picked| + 1 < maxLines {
        AddSpanKeeps(picked + [i], i + 1, end, maxLines, n);
      }
    }
  }

  lemma {:induction false} AddBlocksKeeps(picked: seq<nat>, blocks: seq<Block>, maxLines: int, n: nat)
    requires Distinct(picked) && Below(picked, n) && Within(blocks, n)
    ensures var r := AddBlocks(picked, blocks, maxLines);
            picked <= r && Distinct(r) && Below(r, n)
    decreases |blocks|
  {
    if |blocks| > 0 && |picked| < maxLines {
      var next := AddSpan(picked, blocks[0].span.start, blocks[0].span.end, maxLines);
      AddSpanKeeps(picked, blocks[0].span.start, blocks[0].span.end, maxLines, n);
      AddBlocksKeeps(next, blocks[1..], maxLines, n);
    }
  }

  lemma {:induction false} AddRestKeeps(picked: seq<nat>, i: nat, n: nat, maxLines: int)
    requires Distinct(picked) && Below(picked, n)
    ensures var r := AddRest(picked, i, n, maxLines);
            picked <= r && Distinct(r) && Below(r, n)
    decreases n - i
  {
    if i < n && |picked| < maxLines {
      if i in picked {
        AddRestKeeps(picked, i + 1, n, maxLines);
      } else {
        AddRestKeeps(picked + [i], i + 1, n, maxLines);
      }
    }
  }

  /** A prefix keeps its elements. */
  lemma PrefixIn(a: seq<nat>, b: seq<nat>, x: nat)
    requires a <= b && x in a
    ensures x in b
  {
    var k :| 0 <= k < |a| && a[k] == x;
    assert b[k] == x;
  }

  /** A block entered below the budget leaves the output at most at the budget,
      and adds no more lines than the block has. */
  lemma {:induction false} AddSpanBound(picked: seq<nat>, i: nat, end: nat, maxLines: int)
    ensures var r := AddSpan(picked, i, end, maxLines);
            && |r| <= |picked| + (if i <= end then end + 1 - i else 0)
            && (|picked| < maxLines ==> |r| <= maxLines)
    decreases end + 1 - i
  {
    if i <= end {
      if i in picked {
        AddSpanBound(picked, i + 1, end, maxLines);
      } else if |picked| + 1 < maxLines {
        AddSpanBound(picked + [i], i + 1, end, maxLines);
      }
    }
  }

  lemma {:induction false} AddBlocksBound(picked: seq<nat>, blocks: seq<Block>, maxLines: int)
    ensures |AddBlocks(picked, blocks, maxLines)| <= Max(|picked|, maxLines)
    decreases |blocks|
  {
    if |blocks| > 0 && |picked| < maxLines {
      var next := AddSpan(picked, blocks[0].span.start, blocks[0].span.end, maxLines);
      AddSpanBound(picked, blocks[0].span.start, blocks[0].span.end, maxLines);
      AddBlocksBound(next, blocks[1..], maxLines);
    }
  }

  lemma {:induction false} AddRestBound(picked: seq<nat>, i: nat, n: nat, maxLines: int)
    ensures |AddRest(picked, i, n, maxLines)| <= Max(|picked|, maxLines)
    decreases n - i
  {
    if i < n && |picked| < maxLines {
      if i in picked {
        AddRestBound(picked, i + 1, n, maxLines);
      } else {
        AddRestBound(picked + [i], i + 1, n, maxLines);
      }
    }
  }

  /** If the block's lines fit in the budget, all of them end up chosen. */
  lemma {:induction false} AddSpanCovers(picked: seq<nat>, i: nat, end: nat, maxLines: int)
    requires |picked| + (if i <= end then end + 1 - i else 0) <= maxLines
    ensures var r := AddSpan(picked, i, end, maxLines);
            forall j :: i <= j <= end ==> j in r
    decreases end + 1 - i
  {
    if i <= end {
      var r := AddSpan(picked, i, end, maxLines);
      if i in picked {
        AddSpanCovers(picked, i + 1, end, maxLines);
        AddSpanKeepsAll(picked, i + 1, end, maxLines);
        PrefixIn(picked, r, i);
      } else if |picked| + 1 < maxLines {
        AddSpanCovers(picked + [i], i + 1, end, maxLines);
        AddSpanKeepsAll(picked + [i], i + 1, end, maxLines);
        PrefixIn(picked + [i], r, i);
      }
    }
  }

  /** AddSpan only appends (no range assumptions needed). */
  lemma {:induction false} AddSpanKeepsAll(picked: seq<nat>, i: nat, end: nat, maxLines: int)
    ensures picked <= AddSpan(picked, i, end, maxLines)
    decreases end + 1 - i
  {
    if i <= end {
      if i in picked {
        AddSpanKeepsAll(picked, i + 1, end, maxLines);
      } else if |picked| + 1 < maxLines {
        AddSpanKeepsAll(picked + [i], i + 1, end, maxLines);
      }
    }
  }

  /** AddBlocks only appends. */
  lemma {:induction false} AddBlocksKeepsAll(picked: seq<nat>, blocks: seq<Block>, maxLines: int)
    ensures picked <= AddBlocks(picked, blocks, maxLines)
    decreases |blocks|
  {
    if |blocks| > 0 && |picked| < maxLines {
      var next := AddSpan(picked, blocks[0].span.start, blocks[0].span.end, maxLines);
      AddSpanKeepsAll(picked, blocks[0].span.start, blocks[0].span.end, maxLines);
      AddBlocksKeepsAll(next, blocks[1..], maxLines);
    }
  }

  lemma {:induction false} SizeWithinTotal(blocks: seq<Block>, k: nat)
    requires k < |blocks|
    ensures Size(blocks[k].span) <= TotalSize(blocks)
    decreases k
  {
    if k > 0 {
      SizeWithinTotal(blocks[1..], k - 1);
    }
  }

  /** Blocks of total size 0 hold no line. */
  lemma EmptyBlocks(blocks: seq<Block>)
    requires TotalSize(blocks) == 0
    ensures forall k :: 0 <= k < |blocks| ==> blocks[k].span.end < blocks[k].span.start
  {
    forall k | 0 <= k < |blocks| ensures blocks[k].span.end < blocks[k].span.start {
      SizeWithinTotal(blocks, k);
    }
  }

  /** If all priority lines fit in the budget left after `picked`, every line
      of every block is chosen. */
  lemma {:induction false} AddBlocksCovers(picked: seq<nat>, blocks: seq<Block>, maxLines: int)
    requires |picked| + TotalSize(blocks) <= maxLines
    ensures var r := AddBlocks(picked, blocks, maxLines);
            forall k, j :: 0 <= k < |blocks| && blocks[k].span.start <= j <= blocks[k].span.end ==> j in r
    decreases |blocks|
  {
    var r := AddBlocks(picked, blocks, maxLines);
    if |blocks| > 0 {
      if |picked| >= maxLines {
        EmptyBlocks(blocks);
      } else {
        var b := blocks[0].span;
        var next := AddSpan(picked, b.start, b.end, maxLines);
        AddSpanCovers(picked, b.start, b.end, maxLines);
        AddSpanBound(picked, b.start, b.end, maxLines);
        AddBlocksCovers(next, blocks[1..], maxLines);
        AddBlocksKeepsAll(next, blocks[1..], maxLines);
        forall k, j | 0 <= k < |blocks| && blocks[k].span.start <= j <= blocks[k].span.end
          ensures j in r
        {
          if k == 0 {
            PrefixIn(next, r, j);
          } else {
            assert blocks[k] == blocks[1..][k - 1];
          }
        }
      }
    }
  }

  /** If the budget was never reached, every line from `i` on is chosen. */
  lemma {:induction false} AddRestCovers(picked: seq<nat>, i: nat, n: nat, maxLines: int)
    ensures var r := AddRest(picked, i, n, maxLines);
            |r| < maxLines ==> forall j :: i <= j < n ==> j in r
    decreases n - i
  {
    if i < n && |picked| < maxLines {
      var r := AddRest(picked, i, n, maxLines);
      var next := if i in picked then picked else picked + [i];
      assert r == AddRest(next, i + 1, n, maxLines);
      AddRestCovers(next, i + 1, n, maxLines);
      AddRestKeepsAll(next, i + 1, n, maxLines);
      PrefixIn(next, r, i);
    }
  }

  lemma {:induction false} AddRestKeepsAll(picked: seq<nat>, i: nat, n: nat, maxLines: int)
    ensures picked <= AddRest(picked, i, n, maxLines)
    decreases n - i
  {
    if i < n && |picked| < maxLines {
      if i in picked {
        AddRestKeepsAll(picked, i + 1, n, maxLines);
      } else {
        AddRestKeepsAll(picked + [i], i + 1, n, maxLines);
      }
    }
  }

  /** The remaining lines are appended in increasing file order. */
  lemma {:induction false} AddRestAscending(picked: seq<nat>, i: nat, n: nat, maxLines: int)
    ensures var r := AddRest(picked, i, n, maxLines);
            && picked <= r
            && Increasing(r[|picked|..])
            && forall a :: |picked| <= a < |r| ==> i <= r[a]
    decreases n - i
  {
    if i < n && |picked| < maxLines {
      var r := AddRest(picked, i, n, maxLines);
      AddRestKeepsAll(picked, i, n, maxLines);
      if i in picked {
        AddRestAscending(picked, i + 1, n, maxLines);
      } else {
        var next := picked + [i];
        AddRestAscending(next, i + 1, n, maxLines);
        AddRestKeepsAll(next, i + 1, n, maxLines);
        assert r[|picked|] == i;
        assert forall a :: |picked| < a < |r| ==> i < r[a];
      }
    }
  }

  /** With nothing chosen out of order, the rest loop extends lines 0..i-1 to
      the first min(n, max_lines) lines (or leaves them when the budget is
      already used up). */
  lemma {:induction false} AddRestFromPrefix(i: nat, n: nat, maxLines: int)
    requires i <= n
    ensures AddRest(Range(0, i), i, n, maxLines) == Range(0, Max(i, Min(n, maxLines)))
    decreases n - i
  {
    if i < n && i < maxLines {
      assert i !in Range(0, i);
      assert Range(0, i) + [i] == Range(0, i + 1);
      AddRestFromPrefix(i + 1, n, maxLines);
    }
  }

  /** Line `j` lies in the span of one of the blocks. */
  ghost predicate InBlocks(blocks: seq<Block>, j: nat) {
    exists k :: 0 <= k < |blocks| && blocks[k].span.start <= j <= blocks[k].span.end
  }

  /** The lines a block appends lie in its span, from where it resumed. */
  lemma {:induction false} AddSpanFrom(picked: seq<nat>, i: nat, end: nat, maxLines: int)
    ensures var r := AddSpan(picked, i, end, maxLines);
            forall t :: |picked| <= t < |r| ==> i <= r[t] <= end
    decreases end + 1 - i
  {
    if i <= end {
      var r := AddSpan(picked, i, end, maxLines);
      if i in picked {
        assert r == AddSpan(picked, i + 1, end, maxLines);
        AddSpanFrom(picked, i + 1, end, maxLines);
      } else if |picked| + 1 < maxLines {
        AddSpanFrom(picked + [i], i + 1, end, maxLines);
        AddSpanKeepsAll(picked + [i], i + 1, end, maxLines);
        assert r[|picked|] == (picked + [i])[|picked|] == i;
      }
    }
  }

  /** The lines the priority loop appends all lie in priority blocks. */
  lemma {:induction false} AddBlocksFrom(picked: seq<nat>, blocks: seq<Block>, maxLines: int)
    ensures var r := AddBlocks(picked, blocks, maxLines);
            forall t :: |picked| <= t < |r| ==> InBlocks(blocks, r[t])
    decreases |blocks|
  {
    if |blocks| > 0 && |picked| < maxLines {
      var span := blocks[0].span;
      var next := AddSpan(picked, span.start, span.end, maxLines);
      var r := AddBlocks(picked, blocks, maxLines);
      AddSpanFrom(picked, span.start, span.end, maxLines);
      AddSpanKeepsAll(picked, span.start, span.end, maxLines);
      AddBlocksFrom(next, blocks[1..], maxLines);
      AddBlocksKeepsAll(next, blocks[1..], maxLines);
      forall t | |picked| <= t < |r| ensures InBlocks(blocks, r[t]) {
        if t < |next| {
          assert r[t] == next[t];
          assert 0 < |blocks| && blocks[0].span.start <= r[t] <= blocks[0].span.end;
        } else {
          var k :| 0 <= k < |blocks[1..]| && blocks[1..][k].span.start <= r[t] <= blocks[1..][k].span.end;
          assert blocks[1..][k] == blocks[k + 1];
        }
      }
    }
  }

  /** What the assembly guarantees for every input:
      - lines 0..header_end come first, in order, even past the budget;
      - the lines that follow them, up to the end of the priority loop, all
        lie in priority blocks;
      - the output has at most max(max_lines, header_end + 1) lines;
      - if the header and every priority block fit in the budget, every
        priority line is in the output;
      - if the output is under the budget, every line of the file is in it;
      - after the priority blocks, lines follow in increasing file order. */
  lemma AssemblySpec(n: nat, headerEnd: nat, blocks: seq<Block>, maxLines: int)
    requires headerEnd < n && Within(blocks, n)
    ensures var p := Picked(n, headerEnd, blocks, maxLines);
            && Range(0, headerEnd + 1) <= p
            && |p| <= Max(maxLines, headerEnd + 1)
            && (headerEnd + 1 + TotalSize(blocks) <= maxLines ==>
                  forall k, j :: 0 <= k < |blocks| && blocks[k].span.start <= j <= blocks[k].span.end ==> j in p)
            && (|p| < maxLines ==> forall j :: 0 <= j < n ==> j in p)
            && AddBlocks(Range(0, headerEnd + 1), blocks, maxLines) <= p
            && (forall t :: headerEnd + 1 <= t < |AddBlocks(Range(0, headerEnd + 1), blocks, maxLines)| ==> InBlocks(blocks, p[t]))
            && Increasing(p[|AddBlocks(Range(0, headerEnd + 1), blocks, maxLines)|..])
  {
    var header := Range(0, headerEnd + 1);
    var withBlocks := AddBlocks(header, blocks, maxLines);
    var p := Picked(n, headerEnd, blocks, maxLines);
    AddBlocksKeepsAll(header, blocks, maxLines);
    AddRestKeepsAll(withBlocks, headerEnd + 1, n, maxLines);
    AddBlocksFrom(header, blocks, maxLines);
    forall t | headerEnd + 1 <= t < |withBlocks| ensures InBlocks(blocks, p[t]) {
      assert p[t] == withBlocks[t];
    }
    AddBlocksBound(header, blocks, maxLines);
    AddRestBound(withBlocks, headerEnd + 1, n, maxLines);
    if headerEnd + 1 + TotalSize(blocks) <= maxLines {
      AddBlocksCovers(header, blocks, maxLines);
      forall k, j | 0 <= k < |blocks| && blocks[k].span.start <= j <= blocks[k].span.end
        ensures j in p
      {
        PrefixIn(withBlocks, p, j);
      }
    }
    if |p| < maxLines {
      AddRestCovers(withBlocks, headerEnd + 1, n, maxLines);
      forall j | 0 <= j < n ensures j in p {
        if j <= headerEnd {
          assert header[j] == j;
          PrefixIn(header, withBlocks, j);
          PrefixIn(withBlocks, p, j);
        }
      }
    }
    AddRestAscending(withBlocks, headerEnd + 1, n, maxLines);
  }

  /** Without priority blocks the output is the first
      min(n, max(max_lines, header_end + 1)) lines of the file, in order. */
  lemma NoBlocksIsPrefix(lines: seq<string>, headerEnd: nat, maxLines: int)
    requires headerEnd < |lines|
    ensures Select(lines, Picked(|lines|, headerEnd, [], maxLines))
            == lines[..Min(|lines|, Max(maxLines, headerEnd + 1))]
  {
    AddRestFromPrefix(headerEnd + 1, |lines|, maxLines);
    var m := Max(headerEnd + 1, Min(|lines|, maxLines));
    assert m == Min(|lines|, Max(maxLines, headerEnd + 1));
    assert Picked(|lines|, headerEnd, [], maxLines) == Range(0, m);
  }
}
