/** tasks/templatetags/ext.py: the two template filters that read the HTML
    text of a task. Their regular expressions are written out as the scans
    a backtracking matcher makes for these particular patterns. URL
    percent-decoding (`unquote`) is a parameter. A value that is not a
    string makes either filter fail inside its `try`, which yields ''. */
module Ext {
  import opened Wrappers
  import opened Text

  /** The first index from k on that holds c, or |s| when there is none. */
  function Find(s: string, c: char, k: nat): (e: nat)
    requires k <= |s|
    ensures k <= e <= |s|
    ensures forall m :: k <= m < e ==> s[m] != c
    ensures e < |s| ==> s[e] == c
    decreases |s| - k
  {
    if k == |s| || s[k] == c then k else Find(s, c, k + 1)
  }

  // ------------------------------------------------- get_first_image_url

  /** `src="([^"]+)"` matching at p and ending with the quote at j. */
  predicate SrcMatch(s: string, p: nat, j: nat) {
    p + 5 < j < |s| && s[p..p + 5] == "src=\""
    && (forall k :: p + 5 <= k < j ==> s[k] != '"') && s[j] == '"'
  }

  /** The whole pattern `<img[^>]*src="([^"]+)"` matching at i, with
      `src="` at p and the closing quote at j; its group is s[p + 5..j]. */
  predicate IsMatch(s: string, i: nat, p: nat, j: nat) {
    i + 4 <= p && p <= |s| && s[i..i + 4] == "<img"
    && (forall k :: i + 4 <= k < p ==> s[k] != '>')
    && SrcMatch(s, p, j)
  }

  /** The rest of the pattern from p on: the greedy `[^"]+` runs to the
      first quote, which must exist and leave the run non-empty. */
  function SrcAt(s: string, p: nat): (r: Option<nat>)
    ensures r.Some? ==> SrcMatch(s, p, r.value)
    ensures forall j: nat :: SrcMatch(s, p, j) ==> r == Some(j)
  {
    if p + 5 < |s| && s[p..p + 5] == "src=\"" then
      var j := Find(s, '"', p + 5);
      if p + 5 < j < |s| then Some(j) else None
    else None
  }

  /** Backtracking `[^>]*` from its longest run down to lo: the last p in
      [lo, hi] where the rest of the pattern matches, with its quote. */
  function LastSrc(s: string, lo: nat, hi: nat): (r: Option<(nat, nat)>)
    requires lo <= hi
    ensures r.Some? ==> lo <= r.value.0 <= hi && SrcMatch(s, r.value.0, r.value.1)
    ensures forall p: nat, j: nat :: lo <= p <= hi && SrcMatch(s, p, j) ==> r.Some? && p <= r.value.0
    decreases hi - lo
  {
    var here := SrcAt(s, hi);
    if here.Some? then Some((hi, here.value))
    else if hi == lo then None
    else LastSrc(s, lo, hi - 1)
  }

  /** The match the pattern makes when it starts at i: `src="` as far right
      as the run of characters other than '>' allows. */
  function MatchAt(s: string, i: nat): (r: Option<(nat, nat)>)
    ensures r.Some? ==> IsMatch(s, i, r.value.0, r.value.1)
    ensures forall p: nat, j: nat :: IsMatch(s, i, p, j) ==> r.Some? && p <= r.value.0
  {
    if i + 4 <= |s| && s[i..i + 4] == "<img" then
      var e := Find(s, '>', i + 4);
      LastSrc(s, i + 4, e)
    else None
  }

  /** `re.search` from i on: the leftmost start with a match. */
  function Search(s: string, i: nat): (r: Option<(nat, nat, nat)>)
    ensures r.Some? ==> i <= r.value.0 && IsMatch(s, r.value.0, r.value.1, r.value.2)
    ensures r.Some? ==> forall p: nat, j: nat :: IsMatch(s, r.value.0, p, j) ==> p <= r.value.1
    ensures forall i': nat, p: nat, j: nat :: i <= i' && IsMatch(s, i', p, j) ==> r.Some? && r.value.0 <= i'
    decreases |s| - i
  {
    if i + 4 > |s| then None
    else
      var m := MatchAt(s, i);
      if m.Some? then Some((i, m.value.0, m.value.1)) else Search(s, i + 1)
  }

  /** `get_first_image_url(text)`: the group of the first match in the
      decoded text, or ''. */
  function GetFirstImageUrl(unquote: string -> string, text: Option<string>): (r: string)
    ensures text.None? ==> r == ""
    ensures text.Some? ==> (r == "" <==> forall i: nat, p: nat, j: nat :: !IsMatch(unquote(text.value), i, p, j))
    ensures '"' !in r
  {
    match text
    case None => ""
    case Some(t) =>
      var s := unquote(t);
      var m := Search(s, 0);
      if m.Some? then
        var (_, p, j) := m.value;
        GroupHasNoQuote(s, p, j);
        s[p + 5..j]
      else ""
  }

  lemma GroupHasNoQuote(s: string, p: nat, j: nat)
    requires SrcMatch(s, p, j)
    ensures '"' !in s[p + 5..j]
  {
    var g := s[p + 5..j];
    forall k | 0 <= k < |g| ensures g[k] != '"' {
      assert g[k] == s[p + 5 + k];
    }
  }

  /** When the filter finds an image, the url it returns is the group of
      the leftmost match, and of the match at that start whose `src="`
      lies furthest right. */
  lemma FirstImageUrlIsLeftmost(unquote: string -> string, t: string)
    requires GetFirstImageUrl(unquote, Some(t)) != ""
    ensures var s, r := unquote(t), GetFirstImageUrl(unquote, Some(t));
      exists i: nat, p: nat, j: nat :: IsMatch(s, i, p, j) && r == s[p + 5..j]
        && (forall i': nat, p': nat, j': nat :: IsMatch(s, i', p', j') ==> i <= i' && (i' == i ==> p' <= p))
  {
    var s := unquote(t);
    var (i, p, j) := Search(s, 0).value;
    assert IsMatch(s, i, p, j);
  }

  /** A text that decodes to a single `<img src="url">` tag yields url. */
  lemma FirstImageOfSingleTag(unquote: string -> string, t: string, url: string)
    requires |url| > 0 && '"' !in url
    requires unquote(t) == "<img src=\"" + url + "\">"
    ensures GetFirstImageUrl(unquote, Some(t)) == url
  {
    var s := unquote(t);
    var q := 10 + |url|;
    assert s[0..4] == "<img" && s[5..10] == "src=\"";
    assert s[10..q] == url;
    assert s[q] == '"' && s[q + 1] == '>' && |s| == q + 2;
    forall k | 10 <= k < q ensures s[k] != '"' {
      assert s[k] == url[k - 10];
    }
    assert IsMatch(s, 0, 5, q);
    var (i, p, j) := Search(s, 0).value;
    assert i == 0;
    assert s[p + 4] == '"' by {
      assert s[p..p + 5][4] == s[p + 4];
    }
    assert s[8] == '=' && s[q + 1] == '>';
    assert !(10 <= p + 4 < q);
    assert p + 4 != q;
    assert j == q by {
      assert SrcMatch(s, 5, j) && SrcMatch(s, 5, q);
      assert SrcAt(s, 5) == Some(j) && SrcAt(s, 5) == Some(q);
    }
  }

  // --------------------------------------------- strip_html_and_content

  /** `<[^>]+>` at the head of s: the index of its '>'. The greedy run
      cannot give back a character, so the tag ends at the first '>'. */
  function TagEnd(s: string): (r: Option<nat>)
    ensures r.Some? ==> 2 <= r.value < |s| && s[0] == '<' && s[r.value] == '>'
    ensures r.None? && |s| > 0 && s[0] == '<' ==> |s| == 1 || s[1] == '>' || '>' !in s[1..]
  {
    if |s| >= 2 && s[0] == '<' && s[1] != '>' then
      var e := Find(s, '>', 1);
      if e < |s| then Some(e)
      else
        assert forall k :: 0 <= k < |s[1..]| ==> s[1..][k] == s[k + 1];
        None
    else None
  }

  /** `</[^>]+>` at m: the index of its '>'. */
  function ClosingAt(s: string, m: nat): (r: Option<nat>)
    ensures r.Some? ==> m + 3 <= r.value < |s| && s[m] == '<' && s[m + 1] == '/'
  {
    if m + 3 <= |s| && s[m] == '<' && s[m + 1] == '/' && s[m + 2] != '>' then
      var e := Find(s, '>', m + 2);
      if e < |s| then Some(e) else None
    else None
  }

  /** The lazy `.*?` before a closing tag: the first closing tag from m on,
      by the index of its '>'. */
  function LazyClose(s: string, m: nat): (r: Option<nat>)
    requires m <= |s|
    ensures r.Some? ==> m + 3 <= r.value < |s|
    decreases |s| - m
  {
    if m == |s| then None
    else if ClosingAt(s, m).Some? then ClosingAt(s, m)
    else LazyClose(s, m + 1)
  }

  /** `<[^>]+>.*?</[^>]+>` at the head of s (`.` matches newlines): the
      index of the last character of the element. */
  function ElementEnd(s: string): (r: Option<nat>)
    ensures r.Some? ==> r.value < |s| && s[0] == '<'
  {
    var open := TagEnd(s);
    if open.Some? then LazyClose(s, open.value + 1) else None
  }

  /** First `re.sub`: removes each element with its content, scanning left
      to right and going on after what it removed. */
  function DropElements(s: string): (r: string)
    ensures |r| <= |s|
    ensures '<' !in s ==> r == s
    decreases |s|
  {
    if |s| == 0 then ""
    else
      var end := ElementEnd(s);
      if end.Some? then DropElements(s[end.value + 1..])
      else
        assert '<' !in s ==> '<' !in s[1..];
        assert s == [s[0]] + s[1..];
        [s[0]] + DropElements(s[1..])
  }

  /** Second `re.sub`: removes each remaining `<...>` tag. */
  function DropTags(s: string): (r: string)
    ensures |r| <= |s|
    ensures '<' !in s ==> r == s
    decreases |s|
  {
    if |s| == 0 then ""
    else
      var end := TagEnd(s);
      if end.Some? then DropTags(s[end.value + 1..])
      else
        assert '<' !in s ==> '<' !in s[1..];
        assert s == [s[0]] + s[1..];
        [s[0]] + DropTags(s[1..])
  }

  /** Every '<' is the last character or is followed by '>': nothing that
      could open a tag is left. */
  predicate NoOpening(s: string) {
    forall k :: 0 <= k < |s| - 1 && s[k] == '<' ==> s[k + 1] == '>'
  }

  /** Third `re.sub` (`<[^>]+.*?`, where the lazy part matches nothing):
      removes each '<' with the run of characters other than '>' after it. */
  function DropOpenings(s: string): (r: string)
    ensures |r| <= |s|
    ensures '<' !in s ==> r == s
    ensures |s| > 0 && s[0] != '<' ==> |r| > 0 && r[0] == s[0]
    ensures NoOpening(r)
    decreases |s|
  {
    if |s| == 0 then ""
    else if |s| >= 2 && s[0] == '<' && s[1] != '>' then
      DropOpenings(s[Find(s, '>', 1)..])
    else
      var tail := DropOpenings(s[1..]);
      assert '<' !in s ==> '<' !in s[1..];
      assert s == [s[0]] + s[1..];
      assert s[0] == '<' && |s| >= 2 ==> s[1] == '>' && |tail| > 0 && tail[0] == '>';
      OpeningCons(s[0], tail);
      [s[0]] + tail
  }

  lemma OpeningCons(c: char, tail: string)
    requires NoOpening(tail)
    requires c == '<' && |tail| > 0 ==> tail[0] == '>'
    ensures NoOpening([c] + tail)
  {
    var r := [c] + tail;
    forall k | 0 <= k < |r| - 1 && r[k] == '<' ensures r[k + 1] == '>' {
      if k > 0 {
        assert r[k] == tail[k - 1] && r[k + 1] == tail[k];
      }
    }
  }

  /** Text with nothing left to open a tag passes the third substitution
      unchanged, so applying it twice is applying it once. */
  lemma {:induction false} DropOpeningsKeeps(s: string)
    requires NoOpening(s)
    ensures DropOpenings(s) == s
    decreases |s|
  {
    if |s| > 0 {
      assert !(|s| >= 2 && s[0] == '<' && s[1] != '>');
      assert NoOpening(s[1..]) by {
        forall k | 0 <= k < |s[1..]| - 1 && s[1..][k] == '<' ensures s[1..][k + 1] == '>' {
          assert s[k + 1] == '<';
        }
      }
      DropOpeningsKeeps(s[1..]);
      assert s == [s[0]] + s[1..];
    }
  }

  lemma DropOpeningsIdempotent(s: string)
    ensures DropOpenings(DropOpenings(s)) == DropOpenings(s)
  {
    DropOpeningsKeeps(DropOpenings(s));
  }

  /** `strip_html_and_content(text)`: the three substitutions, then
      `strip()`. */
  function StripHtmlAndContent(text: Option<string>): (r: string)
    ensures text.None? ==> r == ""
    ensures |r| > 0 ==> !IsSpace(r[0]) && !IsSpace(r[|r| - 1])
    ensures text.Some? ==> |r| <= |text.value|
    ensures text.Some? && '<' !in text.value ==> r == Strip(text.value)
  {
    match text
    case None => ""
    case Some(t) => Strip(DropOpenings(DropTags(DropElements(t))))
  }

  /** No '<' that could open a tag survives the filter. */
  lemma StripHtmlLeavesNoOpening(t: string)
    ensures NoOpening(StripHtmlAndContent(Some(t)))
  {
    var d := DropOpenings(DropTags(DropElements(t)));
    var a := StripIsSlice(d);
    var r := Strip(d);
    forall k | 0 <= k < |r| - 1 && r[k] == '<' ensures r[k + 1] == '>' {
      assert d[a + k] == '<' && r[k + 1] == d[a + k + 1];
    }
  }

  /** `strip()` keeps a contiguous part of its argument. */
  lemma StripIsSlice(s: string) returns (a: nat)
    ensures a + |Strip(s)| <= |s| && Strip(s) == s[a..a + |Strip(s)|]
  {
    a := LeadingSpace(s);
    if a == |s| {
      a := 0;
      assert Strip(s) == s[0..0];
    } else {
      var rest := s[a..];
      var b := TrailingSpace(rest);
      assert Strip(s) == s[a..a + (|rest| - b)];
    }
  }

  /** An element whose content holds no '<' goes with its content, and the
      scan carries on after its closing tag. */
  lemma DropsPairedElement(name: string, body: string, closing: string, rest: string)
    requires |name| > 0 && '>' !in name && |closing| > 0 && '>' !in closing && '<' !in body
    ensures DropElements("<" + name + ">" + body + "</" + closing + ">" + rest) == DropElements(rest)
  {
    var s := "<" + name + ">" + body + "</" + closing + ">" + rest;
    var o := |name| + 1;
    var m := o + 1 + |body|;
    var c := m + 2 + |closing|;
    assert |s| == c + 1 + |rest|;
    assert s[0] == '<' && s[1] == name[0] && s[o] == '>';
    forall k | 1 <= k < o ensures s[k] != '>' {
      assert s[k] == name[k - 1];
    }
    assert TagEnd(s) == Some(o);
    forall k | o + 1 <= k < m ensures s[k] != '<' {
      assert s[k] == body[k - o - 1];
    }
    assert s[m] == '<' && s[m + 1] == '/' && s[m + 2] == closing[0] && s[c] == '>';
    forall k | m + 2 <= k < c ensures s[k] != '>' {
      assert s[k] == closing[k - m - 2];
    }
    assert ClosingAt(s, m) == Some(c);
    LazyCloseSkips(s, o + 1, m);
    assert s[c + 1..] == rest;
  }

  /** The lazy scan passes over characters other than '<'. */
  lemma {:induction false} LazyCloseSkips(s: string, from: nat, m: nat)
    requires from <= m < |s|
    requires forall k :: from <= k < m ==> s[k] != '<'
    ensures LazyClose(s, from) == LazyClose(s, m)
    decreases m - from
  {
    if from < m {
      assert ClosingAt(s, from).None?;
      LazyCloseSkips(s, from + 1, m);
    }
  }
}
