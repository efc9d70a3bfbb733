/**
 * The search filter of `renderScores` in script.js: the query is trimmed
 * and lower-cased, and a score is kept when the query is empty or occurs in
 * the lower-cased "title description tags" text of the score.
 */
module ScoreSearch {
  import opened Wrappers
  import HtmlEscape

  /** One entry of `data.scores`; `description` and `tags` may be absent. */
  datatype Score = Score(title: string, description: Option<string>, tags: Option<seq<string>>, file: string)

  /** The characters `String.prototype.trim` removes: ECMAScript WhiteSpace
      and LineTerminator. */
  predicate IsTrimmable(c: char)
  {
    c == '\t' || c == '\n' || c == '\U{000B}' || c == '\U{000C}' || c == '\r' || c == ' '
    || c == '\U{00A0}' || c == '\U{1680}' || ('\U{2000}' <= c <= '\U{200A}')
    || c == '\U{2028}' || c == '\U{2029}' || c == '\U{202F}' || c == '\U{205F}'
    || c == '\U{3000}' || c == '\U{FEFF}'
  }

  predicate AllTrimmable(s: string)
  {
    forall i :: 0 <= i < |s| ==> IsTrimmable(s[i])
  }

  /** Drops leading whitespace: the result is a suffix of `s` that does not
      start with whitespace, and only whitespace was dropped. */
  function TrimStart(s: string): (r: string)
    ensures |r| <= |s| && r == s[|s| - |r|..]
    ensures AllTrimmable(s[..|s| - |r|])
    ensures r != [] ==> !IsTrimmable(r[0])
  {
    if s != [] && IsTrimmable(s[0]) then
      var r := TrimStart(s[1..]);
      TrimStartStep(s, r);
      r
    else s
  }

  /** What the recursive call promises about `s[1..]`, it promises about `s`
      once a leading whitespace character is dropped as well. */
  lemma TrimStartStep(s: string, r: string)
    requires s != [] && IsTrimmable(s[0])
    requires |r| <= |s| - 1 && r == s[1..][|s| - 1 - |r|..]
    requires AllTrimmable(s[1..][..|s| - 1 - |r|])
    ensures |r| <= |s| && r == s[|s| - |r|..]
    ensures AllTrimmable(s[..|s| - |r|])
  {
    var k := |s| - |r|;
    assert s[1..][k - 1..] == s[k..];
    forall i | 1 <= i < k ensures IsTrimmable(s[..k][i]) {
      assert s[..k][i] == s[1..][..k - 1][i - 1];
    }
  }

  /** Drops trailing whitespace: the result is a prefix of `s` that does not
      end with whitespace, and only whitespace was dropped. */
  function TrimEnd(s: string): (r: string)
    ensures |r| <= |s| && r == s[..|r|]
    ensures AllTrimmable(s[|r|..])
    ensures r != [] ==> !IsTrimmable(r[|r| - 1])
  {
    if s != [] && IsTrimmable(s[|s| - 1]) then TrimEnd(s[..|s| - 1]) else s
  }

  /** `s` sits in `whole` at offset `k`, with only whitespace around it. */
  ghost predicate TrimmedAt(whole: string, s: string, k: int)
  {
    0 <= k && k + |s| <= |whole| && s == whole[k..k + |s|]
    && AllTrimmable(whole[..k]) && AllTrimmable(whole[k + |s|..])
  }

  /** `s.trim()`: `s` with the whitespace at both ends removed. The result
      neither starts nor ends with whitespace, and it is empty exactly when
      `s` is all whitespace. */
  function Trim(s: string): (r: string)
    ensures exists k :: TrimmedAt(s, r, k)
    ensures r != [] ==> !IsTrimmable(r[0]) && !IsTrimmable(r[|r| - 1])
    ensures r == [] <==> AllTrimmable(s)
  {
    var t := TrimStart(s);
    var r := TrimEnd(t);
    TrimBothEnds(s, t, r);
    r
  }

  lemma TrimBothEnds(s: string, t: string, r: string)
    requires |t| <= |s| && t == s[|s| - |t|..] && AllTrimmable(s[..|s| - |t|])
    requires t != [] ==> !IsTrimmable(t[0])
    requires |r| <= |t| && r == t[..|r|] && AllTrimmable(t[|r|..])
    ensures TrimmedAt(s, r, |s| - |t|)
    ensures r != [] ==> r[0] == t[0]
    ensures r == [] <==> AllTrimmable(s)
  {
    var k := |s| - |t|;
    TrimmedInside(s, t, r, k);
    if r == [] {
      assert s == s[..k] + t;
      AllTrimmableConcat(s[..k], t);
    }
  }

  /** Dropping whitespace from the front of `s` to get `t` and then from the
      back of `t` to get `r` leaves `r` at offset `k` in `s`. */
  lemma TrimmedInside(s: string, t: string, r: string, k: int)
    requires 0 <= k <= |s| && t == s[k..] && |r| <= |t| && r == t[..|r|]
    requires AllTrimmable(s[..k]) && AllTrimmable(t[|r|..])
    ensures TrimmedAt(s, r, k)
  {
    assert s[k + |r|..] == t[|r|..];
  }

  lemma AllTrimmableConcat(a: string, b: string)
    requires AllTrimmable(a) && AllTrimmable(b)
    ensures AllTrimmable(a + b)
  {
    forall i | 0 <= i < |a + b| ensures IsTrimmable((a + b)[i]) {
      if i >= |a| { assert (a + b)[i] == b[i - |a|]; }
    }
  }

  /** `toLowerCase` on one character; only the ASCII letters are mapped here. */
  function LowerChar(c: char): char
  {
    if 'A' <= c <= 'Z' then (c as int + 32) as char else c
  }

  /** `s.toLowerCase()`, one character at a time. */
  function Lower(s: string): (r: string)
    ensures |r| == |s|
    ensures forall i :: 0 <= i < |s| ==> r[i] == LowerChar(s[i])
  {
    if s == [] then [] else [LowerChar(s[0])] + Lower(s[1..])
  }

  /** `needle` occurs in `hay` starting at position `i`. */
  ghost predicate OccursAt(hay: string, needle: string, i: int)
  {
    0 <= i && i + |needle| <= |hay| && hay[i..i + |needle|] == needle
  }

  /** `needle` occurs somewhere in `hay`. */
  ghost predicate Occurs(hay: string, needle: string)
  {
    exists i :: OccursAt(hay, needle, i)
  }

  /** Every one of `needles` occurs somewhere in `hay`. */
  ghost predicate AllOccur(hay: string, needles: seq<string>)
  {
    forall j :: 0 <= j < |needles| ==> Occurs(hay, needles[j])
  }

  /** An occurrence in `hay` is still one, shifted, after text is put in front. */
  lemma OccursAfter(pre: string, hay: string, needle: string, i: int)
    requires OccursAt(hay, needle, i)
    ensures OccursAt(pre + hay, needle, |pre| + i)
  {
    assert (pre + hay)[|pre| + i..|pre| + i + |needle|] == hay[i..i + |needle|];
  }

  lemma AllOccurAfter(pre: string, hay: string, needles: seq<string>)
    requires AllOccur(hay, needles)
    ensures AllOccur(pre + hay, needles)
  {
    forall j | 0 <= j < |needles| ensures Occurs(pre + hay, needles[j]) {
      var i :| OccursAt(hay, needles[j], i);
      OccursAfter(pre, hay, needles[j], i);
    }
  }

  /** An occurrence in `hay` is still one, at the same place, after text is
      put behind. */
  lemma OccursBefore(hay: string, post: string, needle: string, i: int)
    requires OccursAt(hay, needle, i)
    ensures OccursAt(hay + post, needle, i)
  {
    assert (hay + post)[i..i + |needle|] == hay[i..i + |needle|];
  }

  /** `parts.join(sep)`: every part occurs in the result. */
  function Join(parts: seq<string>, sep: string): (r: string)
    ensures AllOccur(r, parts)
  {
    if |parts| == 0 then ""
    else if |parts| == 1 then
      assert OccursAt(parts[0], parts[0], 0);
      parts[0]
    else
      var rest := Join(parts[1..], sep);
      JoinStep(parts, sep, rest);
      parts[0] + sep + rest
  }

  lemma JoinStep(parts: seq<string>, sep: string, rest: string)
    requires |parts| >= 2 && AllOccur(rest, parts[1..])
    ensures AllOccur(parts[0] + sep + rest, parts)
  {
    var whole := parts[0] + sep + rest;
    AllOccurAfter(parts[0] + sep, rest, parts[1..]);
    assert whole[0..|parts[0]|] == parts[0];
    assert OccursAt(whole, parts[0], 0);
    forall j | 1 <= j < |parts| ensures Occurs(whole, parts[j]) {
      assert parts[j] == parts[1..][j - 1];
    }
  }

  /** An occurrence at the very front, or else one in the tail shifted by one:
      the two ways `includes` can succeed past a mismatch at position 0. */
  lemma OccursInTail(hay: string, needle: string)
    requires |needle| <= |hay| && hay[..|needle|] != needle
    ensures |hay| >= 1
    ensures Occurs(hay, needle) <==> Occurs(hay[1..], needle)
  {
    if Occurs(hay, needle) {
      var i :| OccursAt(hay, needle, i);
      assert i != 0;
      assert hay[1..][i - 1..i - 1 + |needle|] == hay[i..i + |needle|];
      assert OccursAt(hay[1..], needle, i - 1);
    }
    if Occurs(hay[1..], needle) {
      var i :| OccursAt(hay[1..], needle, i);
      assert hay[1..][i..i + |needle|] == hay[i + 1..i + 1 + |needle|];
      assert OccursAt(hay, needle, i + 1);
    }
  }

  /** `hay.includes(needle)`: true exactly when `needle` occurs in `hay` at
      some position. */
  function Includes(hay: string, needle: string): (r: bool)
    ensures r <==> Occurs(hay, needle)
    decreases |hay|
  {
    if |needle| > |hay| then false
    else if hay[..|needle|] == needle then
      assert OccursAt(hay, needle, 0);
      true
    else
      OccursInTail(hay, needle);
      Includes(hay[1..], needle)
  }

  /** `s.description || ''`. */
  function DescriptionText(s: Score): string
  {
    match s.description case Some(d) => d case None => ""
  }

  /** `s.tags || []`. */
  function TagList(s: Score): seq<string>
  {
    match s.tags case Some(ts) => ts case None => []
  }

  /** The text searched for a score: title, description and tags, joined by
      spaces. */
  function Haystack(s: Score): string
  {
    s.title + " " + DescriptionText(s) + " " + Join(TagList(s), " ")
  }

  /** The title sits at the front of the searched text, the description right
      after the first space, and every tag somewhere. */
  lemma HaystackHoldsFields(s: Score)
    ensures OccursAt(Haystack(s), s.title, 0)
    ensures OccursAt(Haystack(s), DescriptionText(s), |s.title| + 1)
    ensures AllOccur(Haystack(s), TagList(s))
  {
    var pre := s.title + " " + DescriptionText(s) + " ";
    var tags := Join(TagList(s), " ");
    assert Haystack(s) == pre + tags;
    AllOccurAfter(pre, tags, TagList(s));
    assert (pre + tags)[0..|s.title|] == s.title;
    assert (pre + tags)[|s.title| + 1..|s.title| + 1 + |DescriptionText(s)|] == DescriptionText(s);
  }

  /** `q.trim().toLowerCase()`: as long as the trimmed query, and empty exactly
      when `q` is all whitespace. */
  function Query(q: string): (r: string)
    ensures |r| == |Trim(q)|
    ensures r == "" <==> AllTrimmable(q)
  {
    Lower(Trim(q))
  }

  /** The predicate given to `scores.filter`, for an already normalised query:
      the query is empty or occurs in the lower-cased haystack. */
  predicate Keep(s: Score, query: string)
    ensures Keep(s, query) <==> query == "" || Occurs(Lower(Haystack(s)), query)
  {
    query == "" || Includes(Lower(Haystack(s)), query)
  }

  /** `scores.filter(...)`: the kept scores, in their original order. A score
      is in the result exactly when it is one of `scores` and matches. */
  function Filter(scores: seq<Score>, query: string): (r: seq<Score>)
    ensures |r| <= |scores|
    ensures forall x :: x in r <==> x in scores && Keep(x, query)
  {
    if scores == [] then []
    else
      var n := |scores| - 1;
      assert scores == scores[..n] + [scores[n]];
      Filter(scores[..n], query) + (if Keep(scores[n], query) then [scores[n]] else [])
  }

  /** The positions of `scores` whose entry is kept, in increasing order. */
  ghost function KeptIndices(scores: seq<Score>, query: string): seq<nat>
  {
    if scores == [] then []
    else
      var n := |scores| - 1;
      KeptIndices(scores[..n], query) + (if Keep(scores[n], query) then [n] else [])
  }

  /** What one score becomes on the page: its escaped title and description,
      its first three tags escaped, and its file escaped as an attribute. */
  datatype Card = Card(title: string, description: string, pills: seq<string>, href: string)

  /** What `renderScores` puts in the list: the "no results" note, or one card
      per kept score. */
  datatype Listing = NoResults | Cards(cards: seq<Card>)

  /** The text contains none of the characters that end an element's text or
      a quoted attribute. */
  predicate Inert(t: string)
  {
    '<' !in t && '>' !in t && '"' !in t && '\'' !in t
  }

  /** `tags.map(escapeHtml)`. */
  function EscapeAll(tags: seq<string>): (r: seq<string>)
    ensures |r| == |tags|
    ensures forall i :: 0 <= i < |tags| ==> r[i] == HtmlEscape.EscapeHtml(tags[i]) && Inert(r[i])
  {
    if tags == [] then [] else [HtmlEscape.EscapeHtml(tags[0])] + EscapeAll(tags[1..])
  }

  /** The card of one score: every text interpolated into the markup is
      inert, the link target is also free of the backtick, and decoding the
      entities gives back the score's own title, description and file; the
      pills are the escaped first (at most) three tags. */
  function CardOf(s: Score): (c: Card)
    ensures Inert(c.title) && Inert(c.description) && Inert(c.href) && '`' !in c.href
    ensures HtmlEscape.Unescape(c.title) == s.title
    ensures HtmlEscape.Unescape(c.description) == DescriptionText(s)
    ensures HtmlEscape.Unescape(c.href) == s.file
    ensures |c.pills| == if |TagList(s)| <= 3 then |TagList(s)| else 3
    ensures forall i :: 0 <= i < |c.pills| ==>
              c.pills[i] == HtmlEscape.EscapeHtml(TagList(s)[i]) && Inert(c.pills[i])
  {
    var tags := TagList(s);
    var shown := if |tags| <= 3 then tags else tags[..3];
    HtmlEscape.EscapeHtmlRoundTrip(s.title);
    HtmlEscape.EscapeHtmlRoundTrip(DescriptionText(s));
    HtmlEscape.EscapeAttrRoundTrip(s.file);
    Card(HtmlEscape.EscapeHtml(s.title), HtmlEscape.EscapeHtml(DescriptionText(s)),
         EscapeAll(shown), HtmlEscape.EscapeAttr(s.file))
  }

  function CardsOf(scores: seq<Score>): (r: seq<Card>)
    ensures |r| == |scores|
    ensures forall i :: 0 <= i < |scores| ==> r[i] == CardOf(scores[i])
  {
    if scores == [] then [] else [CardOf(scores[0])] + CardsOf(scores[1..])
  }

  /** `renderScores(scores, q)`, as the listing it produces: the "no results"
      note exactly when nothing is kept, and otherwise one card per kept
      score, in order. */
  function RenderScores(scores: seq<Score>, q: string): (r: Listing)
    ensures r == NoResults <==> Filter(scores, Query(q)) == []
    ensures r.Cards? ==>
              |r.cards| == |Filter(scores, Query(q))| > 0
              && forall k :: 0 <= k < |r.cards| ==> r.cards[k] == CardOf(Filter(scores, Query(q))[k])
  {
    var kept := Filter(scores, Query(q));
    if |kept| == 0 then NoResults else Cards(CardsOf(kept))
  }

  lemma {:induction false} FilterEmptyQuery(scores: seq<Score>)
    ensures Filter(scores, "") == scores
  {
    if scores != [] {
      var n := |scores| - 1;
      FilterEmptyQuery(scores[..n]);
      assert scores == scores[..n] + [scores[n]];
    }
  }

  /** A query that is blank after trimming keeps every score. */
  lemma BlankQueryKeepsAll(scores: seq<Score>, q: string)
    requires AllTrimmable(q)
    ensures Filter(scores, Query(q)) == scores
  {
    FilterEmptyQuery(scores);
  }

  /** If `field` occurs in `hay` at `k` and `q` occurs in `field` at `j`, then
      `q` occurs in `hay` at `k + j`. */
  lemma OccursWithin(hay: string, field: string, q: string, k: int, j: int)
    requires OccursAt(hay, field, k) && OccursAt(field, q, j)
    ensures OccursAt(hay, q, k + j)
  {
    forall m | 0 <= m < |q| ensures hay[k + j + m] == q[m] {
      assert hay[k..k + |field|][j + m] == field[j + m] == field[j..j + |q|][m];
    }
    assert hay[k + j..k + j + |q|] == q;
  }

  /** Lower-casing keeps an occurrence where it is. */
  lemma LowerOccurs(hay: string, field: string, k: int)
    requires OccursAt(hay, field, k)
    ensures OccursAt(Lower(hay), Lower(field), k)
  {
    forall i | 0 <= i < |field| ensures Lower(hay)[k..k + |field|][i] == Lower(field)[i] {
      assert hay[k + i] == field[i];
    }
  }

  /** A query found in the lower-cased title, description or any one tag of
      a score keeps that score. */
  lemma {:induction false} FieldMatchKeeps(s: Score, field: string, query: string, j: int)
    requires field == s.title || field == DescriptionText(s) || field in TagList(s)
    requires OccursAt(Lower(field), query, j)
    ensures Keep(s, query)
  {
    var hay := Haystack(s);
    HaystackHoldsFields(s);
    var k: int;
    if field == s.title {
      k := 0;
    } else if field == DescriptionText(s) {
      k := |s.title| + 1;
    } else {
      var t :| 0 <= t < |TagList(s)| && TagList(s)[t] == field;
      k :| OccursAt(hay, TagList(s)[t], k);
    }
    LowerOccurs(hay, field, k);
    OccursWithin(Lower(hay), Lower(field), query, k, j);
  }

  /** `r` is `scores` at the positions `idx`, one for one. */
  ghost predicate PicksAt(scores: seq<Score>, r: seq<Score>, idx: seq<nat>)
  {
    |r| == |idx| && forall k :: 0 <= k < |idx| ==> idx[k] < |scores| && r[k] == scores[idx[k]]
  }

  ghost predicate Increasing(idx: seq<nat>)
  {
    forall k, l :: 0 <= k < l < |idx| ==> idx[k] < idx[l]
  }

  /** `idx` holds exactly the positions of the matching scores. */
  ghost predicate KeptExactly(scores: seq<Score>, idx: seq<nat>, query: string)
  {
    forall i :: 0 <= i < |scores| ==> (i in idx <==> Keep(scores[i], query))
  }

  lemma PicksAtExtend(scores: seq<Score>, r0: seq<Score>, idx0: seq<nat>, r: seq<Score>, idx: seq<nat>)
    requires scores != [] && PicksAt(scores[..|scores| - 1], r0, idx0)
    requires var n := |scores| - 1;
      (r == r0 + [scores[n]] && idx == idx0 + [n]) || (r == r0 && idx == idx0)
    ensures PicksAt(scores, r, idx)
    ensures forall k :: 0 <= k < |idx0| ==> idx0[k] < |scores| - 1
  {
    var front := scores[..|scores| - 1];
    forall k | 0 <= k < |idx0| ensures r[k] == scores[idx0[k]] {
      assert front[idx0[k]] == scores[idx0[k]];
    }
  }

  lemma KeptExactlyExtend(scores: seq<Score>, idx0: seq<nat>, idx: seq<nat>, query: string)
    requires scores != [] && KeptExactly(scores[..|scores| - 1], idx0, query)
    requires forall k :: 0 <= k < |idx0| ==> idx0[k] < |scores| - 1
    requires var n := |scores| - 1;
      idx == idx0 + (if Keep(scores[n], query) then [n] else [])
    ensures KeptExactly(scores, idx, query)
  {
    var n := |scores| - 1;
    AppendedBelow(idx0, n, Keep(scores[n], query));
    assert forall i :: 0 <= i < n ==> scores[..n][i] == scores[i];
  }

  /** Appending position `n` (or nothing) to positions all below `n` leaves
      membership below `n` as it was, and puts `n` in exactly when appended. */
  lemma AppendedBelow(idx0: seq<nat>, n: nat, add: bool)
    requires forall k :: 0 <= k < |idx0| ==> idx0[k] < n
    ensures var idx := idx0 + (if add then [n] else []);
      (n in idx <==> add) && forall i :: 0 <= i < n ==> (i in idx <==> i in idx0)
  {
    assert n !in idx0;
  }

  /** The filter result is exactly the scores at the kept positions, taken in
      increasing order: an order-preserving subsequence holding every score
      that matches and no other. */
  lemma {:induction false} FilterIsOrderedSelection(scores: seq<Score>, query: string)
    ensures PicksAt(scores, Filter(scores, query), KeptIndices(scores, query))
    ensures Increasing(KeptIndices(scores, query))
    ensures KeptExactly(scores, KeptIndices(scores, query), query)
  {
    if scores != [] {
      var n := |scores| - 1;
      var front := scores[..n];
      FilterIsOrderedSelection(front, query);
      var idx0 := KeptIndices(front, query);
      PicksAtExtend(scores, Filter(front, query), idx0, Filter(scores, query), KeptIndices(scores, query));
      KeptExactlyExtend(scores, idx0, KeptIndices(scores, query), query);
    }
  }
}
