/** The three tag patterns that balance_xml_tags runs with re.finditer over
    each line (app/truncate_xml.py:77-94, app/truncate_xml_new.py:189-206):

      opening   <([a-zA-Z][\w-]*)[^/>]*(?<!/)>
      closing   </([a-zA-Z][\w-]*)>

    A match is searched for at each position from left to right, and the
    search resumes at the end of the previous match (`FindIter`). `\w` is taken on ASCII.
    The self-closing pattern's loop body does nothing and is not modelled. */
module XmlTags {
  import opened Optional

  predicate IsLetter(c: char) {
    ('a' <= c <= 'z') || ('A' <= c <= 'Z')
  }

  /** `[\w-]` on ASCII. */
  predicate IsNameChar(c: char) {
    IsLetter(c) || ('0' <= c <= '9') || c == '_' || c == '-'
  }

  /** What the group `([a-zA-Z][\w-]*)` can capture. */
  predicate IsTagName(t: string) {
    |t| > 0 && IsLetter(t[0]) && forall k :: 0 < k < |t| ==> IsNameChar(t[k])
  }

  /** End of the greedy run `[\w-]*` that starts at `i`. */
  function NameEnd(s: string, i: nat): (j: nat)
    requires i <= |s|
    ensures i <= j <= |s|
    ensures forall k :: i <= k < j ==> IsNameChar(s[k])
    ensures j < |s| ==> !IsNameChar(s[j])
    decreases |s| - i
  {
    if i == |s| || !IsNameChar(s[i]) then i else NameEnd(s, i + 1)
  }

  /** End of the greedy run `[^/>]*` that starts at `i`. */
  function AttrEnd(s: string, i: nat): (j: nat)
    requires i <= |s|
    ensures i <= j <= |s|
    ensures forall k :: i <= k < j ==> s[k] != '/' && s[k] != '>'
    ensures j < |s| ==> s[j] == '/' || s[j] == '>'
    decreases |s| - i
  {
    if i == |s| || s[i] == '/' || s[i] == '>' then i else AttrEnd(s, i + 1)
  }

  /** A match: the captured tag name and the index just after the match. */
  datatype Match = Match(tag: string, next: nat)

  /** The opening pattern matches `s[i..j]` with group `g`, stated without
      reference to the search: '<', the name `g`, a run of `[^/>]`, then '>'
      not preceded by '/'. The greedy `[\w-]*` tries the longest name first,
      so `g` is followed by a character that is not a name character. */
  ghost predicate OpenAt(s: string, i: nat, j: nat, g: string) {
    && i + |g| + 2 <= j <= |s|
    && s[i] == '<' && IsTagName(g) && s[i + 1..i + 1 + |g|] == g
    && !IsNameChar(s[i + 1 + |g|])
    && (forall k :: i + 1 + |g| <= k < j - 1 ==> s[k] != '/' && s[k] != '>')
    && s[j - 1] == '>' && s[j - 2] != '/'
  }

  /** Any way the opening pattern could match at `i` once backtracking is
      allowed: a name `g` of any length, with the look-behind not yet checked. */
  ghost predicate OpenTry(s: string, i: nat, j: nat, g: string) {
    && i + |g| + 2 <= j <= |s|
    && s[i] == '<' && IsTagName(g) && s[i + 1..i + 1 + |g|] == g
    && (forall k :: i + 1 + |g| <= k < j - 1 ==> s[k] != '/' && s[k] != '>')
    && s[j - 1] == '>'
  }

  /** The closing pattern matches `s[i..j]` with group `g`. */
  ghost predicate CloseAt(s: string, i: nat, j: nat, g: string) {
    && j == i + |g| + 3 <= |s|
    && s[i..i + 2] == "</" && IsTagName(g) && s[i + 2..j - 1] == g && s[j - 1] == '>'
  }

  /** The opening pattern tried at position `i`. */
  function OpenMatchAt(s: string, i: nat): (m: Option<Match>)
    requires i < |s|
    ensures m.Some? ==> i < m.value.next <= |s| && IsTagName(m.value.tag)
    ensures m.Some? ==> s[i] == '<' && s[m.value.next - 1] == '>'
  {
    if s[i] == '<' && i + 1 < |s| && IsLetter(s[i + 1]) then
      var e := NameEnd(s, i + 2);
      var a := AttrEnd(s, e);
      if a < |s| && s[a] == '>' then Some(Match(s[i + 1..e], a + 1)) else None
    else None
  }

  /** The closing pattern tried at position `i`. */
  function CloseMatchAt(s: string, i: nat): (m: Option<Match>)
    requires i < |s|
    ensures m.Some? ==> i < m.value.next <= |s| && IsTagName(m.value.tag)
    ensures m.Some? ==> m.value.next == i + 2 + |m.value.tag| + 1 && s[i..i + 2] == "</"
    ensures m.Some? ==> s[i + 2..m.value.next - 1] == m.value.tag && s[m.value.next - 1] == '>'
  {
    if s[i] == '<' && i + 2 < |s| && s[i + 1] == '/' && IsLetter(s[i + 2]) then
      var e := NameEnd(s, i + 3);
      if e < |s| && s[e] == '>' then Some(Match(s[i + 2..e], e + 1)) else None
    else None
  }

  /** The two patterns that the line loop searches for. */
  datatype Pattern = Opening | Closing

  ghost predicate MatchesAt(p: Pattern, s: string, i: nat, j: nat, g: string) {
    match p
    case Opening => OpenAt(s, i, j, g)
    case Closing => CloseAt(s, i, j, g)
  }

  function MatchAt(p: Pattern, s: string, i: nat): (m: Option<Match>)
    requires i < |s|
    ensures m.Some? ==> i < m.value.next <= |s| && IsTagName(m.value.tag)
  {
    match p
    case Opening => OpenMatchAt(s, i)
    case Closing => CloseMatchAt(s, i)
  }

  /** re.finditer of pattern `p` from position `i`: the tag names in order. */
  function TagsFrom(p: Pattern, s: string, i: nat): (tags: seq<string>)
    requires i <= |s|
    ensures forall k :: 0 <= k < |tags| ==> IsTagName(tags[k])
    decreases |s| - i
  {
    if i == |s| then []
    else
      match MatchAt(p, s, i)
      case Some(m) => [m.tag] + TagsFrom(p, s, m.next)
      case None => TagsFrom(p, s, i + 1)
  }

  function OpeningTags(line: string): seq<string> {
    TagsFrom(Opening, line, 0)
  }

  function ClosingTags(line: string): seq<string> {
    TagsFrom(Closing, line, 0)
  }

  /** A match reported by the search: where it starts, where it ends, its group. */
  datatype Found = Found(start: nat, next: nat, tag: string)

  function Tags(hits: seq<Found>): seq<string> {
    if |hits| == 0 then [] else [hits[0].tag] + Tags(hits[1..])
  }

  /** No match of `p` starts at a position in `lo..hi`. */
  ghost predicate NoMatchIn(p: Pattern, s: string, lo: nat, hi: nat) {
    forall k: nat, j: nat, g :: lo <= k < hi ==> !MatchesAt(p, s, k, j, g)
  }

  /** `hits` is what a leftmost search from `i` reports: each hit is a match at
      the first position that has one, from `i` or from the end of the
      previous hit, and no match starts after the last hit. */
  ghost predicate FindIter(p: Pattern, s: string, i: nat, hits: seq<Found>)
    decreases |hits|
  {
    if |hits| == 0 then NoMatchIn(p, s, i, |s|)
    else
      var h := hits[0];
      && i <= h.start
      && MatchesAt(p, s, h.start, h.next, h.tag)
      && NoMatchIn(p, s, i, h.start)
      && FindIter(p, s, h.next, hits[1..])
  }

  /** The greedy name run stops exactly at the first non-name character. */
  lemma {:induction false} NameEndAt(s: string, i: nat, j: nat)
    requires i <= j < |s|
    requires forall k :: i <= k < j ==> IsNameChar(s[k])
    requires !IsNameChar(s[j])
    ensures NameEnd(s, i) == j
    decreases j - i
  {
    if i < j {
      NameEndAt(s, i + 1, j);
    }
  }

  /** The greedy name run reaches at least past every run of name characters. */
  lemma {:induction false} NameEndPast(s: string, i: nat, j: nat)
    requires i <= j <= |s|
    requires forall k :: i <= k < j ==> IsNameChar(s[k])
    ensures j <= NameEnd(s, i)
    decreases j - i
  {
    if i < j {
      NameEndPast(s, i + 1, j);
    }
  }

  /** The greedy `[^/>]*` run stops exactly at the first '/' or '>'. */
  lemma {:induction false} AttrEndAt(s: string, i: nat, j: nat)
    requires i <= j < |s|
    requires forall k :: i <= k < j ==> s[k] != '/' && s[k] != '>'
    requires s[j] == '/' || s[j] == '>'
    ensures AttrEnd(s, i) == j
    decreases j - i
  {
    if i < j {
      AttrEndAt(s, i + 1, j);
    }
  }

  /** The opening pattern tried at `i` finds exactly the match `OpenAt` describes. */
  lemma OpenMatchAtIff(s: string, i: nat, j: nat, g: string)
    requires i < |s|
    ensures OpenMatchAt(s, i) == Some(Match(g, j)) <==> OpenAt(s, i, j, g)
  {
    if OpenMatchAt(s, i) == Some(Match(g, j)) {
      var e := NameEnd(s, i + 2);
      var a := AttrEnd(s, e);
      assert g == s[i + 1..e] && j == a + 1;
      assert IsNameChar(s[e - 1]);
    }
    if OpenAt(s, i, j, g) {
      var e := i + 1 + |g|;
      assert s[i + 1] == g[0];
      forall k | i + 2 <= k < e ensures IsNameChar(s[k]) {
        assert s[k] == g[k - i - 1];
      }
      NameEndAt(s, i + 2, e);
      AttrEndAt(s, e, j - 1);
    }
  }

  /** Backtracking cannot rescue a failed greedy attempt and the look-behind
      never fails: whenever the pattern can match at `i` in any way, the
      greedy match ends at the same place. */
  lemma OpenGreedy(s: string, i: nat, j: nat, g: string)
    requires OpenTry(s, i, j, g)
    ensures i + 2 <= NameEnd(s, i + 2) < j
    ensures OpenAt(s, i, j, s[i + 1..NameEnd(s, i + 2)])
  {
    var e0 := i + 1 + |g|;
    forall k | i + 2 <= k < e0 ensures IsNameChar(s[k]) {
      assert s[k] == g[k - i - 1];
    }
    NameEndPast(s, i + 2, e0);
    var e := NameEnd(s, i + 2);
    AttrEndAt(s, e, j - 1);
    assert s[i + 1] == g[0];
    assert OpenMatchAt(s, i) == Some(Match(s[i + 1..e], j));
    OpenMatchAtIff(s, i, j, s[i + 1..e]);
  }

  /** The closing pattern tried at `i` finds exactly the match `CloseAt` describes. */
  lemma CloseMatchAtIff(s: string, i: nat, j: nat, g: string)
    requires i < |s|
    ensures CloseMatchAt(s, i) == Some(Match(g, j)) <==> CloseAt(s, i, j, g)
  {
    if CloseAt(s, i, j, g) {
      var e := i + 2 + |g|;
      assert s[i] == s[i..i + 2][0] && s[i + 1] == s[i..i + 2][1];
      assert s[i + 2] == g[0];
      forall k | i + 3 <= k < e ensures IsNameChar(s[k]) {
        assert s[k] == g[k - i - 2];
      }
      NameEndAt(s, i + 3, e);
    }
  }

  lemma MatchAtIff(p: Pattern, s: string, i: nat, j: nat, g: string)
    requires i < |s|
    ensures MatchAt(p, s, i) == Some(Match(g, j)) <==> MatchesAt(p, s, i, j, g)
  {
    match p
    case Opening => OpenMatchAtIff(s, i, j, g);
    case Closing => CloseMatchAtIff(s, i, j, g);
  }

  /** A failed attempt at `i` means that no match of `p` starts at `i`. */
  lemma MatchAtNone(p: Pattern, s: string, i: nat)
    requires i < |s|
    ensures MatchAt(p, s, i).None? <==> forall j: nat, g :: !MatchesAt(p, s, i, j, g)
  {
    if MatchAt(p, s, i).Some? {
      var m := MatchAt(p, s, i).value;
      MatchAtIff(p, s, i, m.next, m.tag);
    } else {
      forall j: nat, g | true ensures !MatchesAt(p, s, i, j, g) {
        MatchAtIff(p, s, i, j, g);
      }
    }
  }

  /** Every leftmost search from `i` reports exactly the names `TagsFrom` lists. */
  lemma {:induction false} FindIterTags(p: Pattern, s: string, i: nat, hits: seq<Found>)
    requires i <= |s| && FindIter(p, s, i, hits)
    ensures Tags(hits) == TagsFrom(p, s, i)
    decreases |s| - i
  {
    if i < |s| {
      match MatchAt(p, s, i)
      case Some(m) =>
        MatchAtIff(p, s, i, m.next, m.tag);
        assert |hits| > 0;
        var h := hits[0];
        assert h.start == i;
        MatchAtIff(p, s, i, h.next, h.tag);
        FindIterTags(p, s, m.next, hits[1..]);
      case None =>
        MatchAtNone(p, s, i);
        FindIterTags(p, s, i + 1, hits);
    }
  }

  /** A match at `h.start`, followed by a search from its end. */
  lemma FindIterHit(p: Pattern, s: string, h: Found, rest: seq<Found>) returns (hits: seq<Found>)
    requires MatchesAt(p, s, h.start, h.next, h.tag) && FindIter(p, s, h.next, rest)
    ensures hits == [h] + rest && Tags(hits) == [h.tag] + Tags(rest)
    ensures FindIter(p, s, h.start, hits)
  {
    hits := [h] + rest;
    assert hits[1..] == rest;
  }

  /** A search from `i` where nothing matches at `i` is the search from `i + 1`. */
  lemma FindIterSkip(p: Pattern, s: string, i: nat, hits: seq<Found>)
    requires forall j: nat, g :: !MatchesAt(p, s, i, j, g)
    requires FindIter(p, s, i + 1, hits)
    ensures FindIter(p, s, i, hits)
  {
    if |hits| > 0 {
      assert NoMatchIn(p, s, i + 1, hits[0].start);
    }
  }

  /** The names `TagsFrom` lists come from a leftmost search from `i`. */
  lemma TagsFromFindIter(p: Pattern, s: string, i: nat)
    requires i <= |s|
    ensures exists hits :: FindIter(p, s, i, hits) && Tags(hits) == TagsFrom(p, s, i)
  {
    var hits := SearchHits(p, s, i);
  }

  /** The hits of the leftmost search from `i`, built alongside `TagsFrom`. */
  lemma {:induction false} SearchHits(p: Pattern, s: string, i: nat) returns (hits: seq<Found>)
    requires i <= |s|
    ensures FindIter(p, s, i, hits) && Tags(hits) == TagsFrom(p, s, i)
    decreases |s| - i
  {
    if i == |s| {
      hits := [];
    } else {
      match MatchAt(p, s, i)
      case Some(m) =>
        var rest := SearchHits(p, s, m.next);
        MatchAtIff(p, s, i, m.next, m.tag);
        hits := FindIterHit(p, s, Found(i, m.next, m.tag), rest);
      case None =>
        hits := SearchHits(p, s, i + 1);
        MatchAtNone(p, s, i);
        FindIterSkip(p, s, i, hits);
    }
  }

  /** Every match starts with '<': a stretch with no '<' yields no tags. */
  lemma {:induction false} NoAngleNoTags(s: string, i: nat)
    requires i <= |s|
    requires forall k :: i <= k < |s| ==> s[k] != '<'
    ensures TagsFrom(Opening, s, i) == [] && TagsFrom(Closing, s, i) == []
    decreases |s| - i
  {
    if i < |s| {
      NoAngleNoTags(s, i + 1);
    }
  }

  /** The line `</t>` is one closing tag `t` and no opening tag. */
  lemma CloserLineTags(t: string)
    requires IsTagName(t)
    ensures OpeningTags("</" + t + ">") == []
    ensures ClosingTags("</" + t + ">") == [t]
  {
    var s := "</" + t + ">";
    assert s[0] == '<' && s[1] == '/';
    forall k | 1 <= k < |s| ensures s[k] != '<' {
      if 2 <= k < |s| - 1 {
        assert s[k] == t[k - 2];
      }
    }
    NoAngleNoTags(s, 1);
    assert OpenMatchAt(s, 0) == None;
    assert forall k :: 3 <= k < 2 + |t| ==> s[k] == t[k - 2];
    NameEndAt(s, 3, 2 + |t|);
    assert s[2..2 + |t|] == t;
    NoAngleNoTags(s, |s|);
  }
}
