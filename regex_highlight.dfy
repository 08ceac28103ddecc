/** The five-character HTML escaper of the regex playground and its inverse. */
module HtmlEscape {
  import opened Seqs

  /** `s.replaceAll(c, rep)` for a one-character pattern: every occurrence of
      `c` becomes `rep`, the rest is copied. */
  function ReplaceAll(s: string, c: char, rep: string): (r: string)
    ensures c !in s ==> r == s
    ensures |rep| >= 1 ==> |r| >= |s|
  {
    if s == [] then []
    else (if s[0] == c then rep else [s[0]]) + ReplaceAll(s[1..], c, rep)
  }

  /** `escapeHtml`: the chain of `replaceAll` calls, `&` first. */
  function EscapeHtml(s: string): string {
    ReplaceAll(ReplaceAll(ReplaceAll(ReplaceAll(ReplaceAll(
      s, '&', "&amp;"), '<', "&lt;"), '>', "&gt;"), '"', "&quot;"), '\'', "&#39;")
  }

  /** Escaping never shortens a text, and leaves a text without any of the
      five characters as it is. */
  lemma EscapeHtmlPlain(s: string)
    ensures |EscapeHtml(s)| >= |s|
    ensures '&' !in s && '<' !in s && '>' !in s && '"' !in s && '\'' !in s ==> EscapeHtml(s) == s
  {
    var a := ReplaceAll(s, '&', "&amp;");
    var b := ReplaceAll(a, '<', "&lt;");
    var c := ReplaceAll(b, '>', "&gt;");
    var d := ReplaceAll(c, '"', "&quot;");
    assert EscapeHtml(s) == ReplaceAll(d, '\'', "&#39;");
  }

  /** The one-pass reference escaper: what each character becomes. */
  function EscapeChar(c: char): string {
    match c
    case '&' => "&amp;"
    case '<' => "&lt;"
    case '>' => "&gt;"
    case '"' => "&quot;"
    case '\'' => "&#39;"
    case _ => [c]
  }

  /** The four characters that never survive escaping. */
  predicate IsMarkupChar(c: char) {
    c == '<' || c == '>' || c == '"' || c == '\''
  }

  /** Decodes the five entities `escapeHtml` produces, left to right; any
      other character is copied. */
  function Unescape(s: string): string
    decreases |s|
  {
    if s == [] then []
    else if "&amp;" <= s then "&" + Unescape(s[5..])
    else if "&lt;" <= s then "<" + Unescape(s[4..])
    else if "&gt;" <= s then ">" + Unescape(s[4..])
    else if "&quot;" <= s then "\"" + Unescape(s[6..])
    else if "&#39;" <= s then "'" + Unescape(s[5..])
    else [s[0]] + Unescape(s[1..])
  }

  lemma {:induction false} ReplaceAllAppend(a: string, b: string, c: char, rep: string)
    ensures ReplaceAll(a + b, c, rep) == ReplaceAll(a, c, rep) + ReplaceAll(b, c, rep)
  {
    if a != [] {
      var h := if a[0] == c then rep else [a[0]];
      assert (a + b)[0] == a[0] && (a + b)[1..] == a[1..] + b;
      assert ReplaceAll(a + b, c, rep) == h + ReplaceAll(a[1..] + b, c, rep);
      assert ReplaceAll(a, c, rep) == h + ReplaceAll(a[1..], c, rep);
      ReplaceAllAppend(a[1..], b, c, rep);
      AppendAssoc(h, ReplaceAll(a[1..], c, rep), ReplaceAll(b, c, rep));
    } else {
      assert a + b == b;
    }
  }

  /** Escaping distributes over concatenation. */
  lemma EscapeHtmlAppend(a: string, b: string)
    ensures EscapeHtml(a + b) == EscapeHtml(a) + EscapeHtml(b)
  {
    var s1a, s1b := ReplaceAll(a, '&', "&amp;"), ReplaceAll(b, '&', "&amp;");
    ReplaceAllAppend(a, b, '&', "&amp;");
    var s2a, s2b := ReplaceAll(s1a, '<', "&lt;"), ReplaceAll(s1b, '<', "&lt;");
    ReplaceAllAppend(s1a, s1b, '<', "&lt;");
    var s3a, s3b := ReplaceAll(s2a, '>', "&gt;"), ReplaceAll(s2b, '>', "&gt;");
    ReplaceAllAppend(s2a, s2b, '>', "&gt;");
    var s4a, s4b := ReplaceAll(s3a, '"', "&quot;"), ReplaceAll(s3b, '"', "&quot;");
    ReplaceAllAppend(s3a, s3b, '"', "&quot;");
    ReplaceAllAppend(s4a, s4b, '\'', "&#39;");
  }

  /** On one character the chain agrees with the reference: because `&` is
      replaced first, the `&` of a later entity is never escaped again. */
  lemma EscapeHtmlChar(c: char)
    ensures EscapeHtml([c]) == EscapeChar(c)
  {
  }

  /** The chain equals the one-pass reference, character by character. */
  lemma EscapeHtmlCons(c: char, s: string)
    ensures EscapeHtml([c] + s) == EscapeChar(c) + EscapeHtml(s)
  {
    EscapeHtmlAppend([c], s);
    EscapeHtmlChar(c);
  }

  /** The one-pass escaper, character by character. */
  function EscapeEach(s: string): string {
    if s == [] then [] else EscapeChar(s[0]) + EscapeEach(s[1..])
  }

  /** The chain of replacements equals the one-pass escaper on every input. */
  lemma {:induction false} EscapeHtmlIsEscapeEach(s: string)
    ensures EscapeHtml(s) == EscapeEach(s)
  {
    if s != [] {
      assert s == [s[0]] + s[1..];
      EscapeHtmlCons(s[0], s[1..]);
      EscapeHtmlIsEscapeEach(s[1..]);
    }
  }

  lemma {:induction false} EscapeEachSafe(s: string)
    ensures forall i :: 0 <= i < |EscapeEach(s)| ==> !IsMarkupChar(EscapeEach(s)[i])
  {
    if s != [] {
      var e, t := EscapeChar(s[0]), EscapeEach(s[1..]);
      EscapeEachSafe(s[1..]);
      assert forall i :: 0 <= i < |e| ==> !IsMarkupChar(e[i]);
      assert EscapeEach(s) == e + t;
    }
  }

  /** Escaped text holds none of `<`, `>`, `"` and `'`. */
  lemma EscapeHtmlSafe(s: string)
    ensures forall i :: 0 <= i < |EscapeHtml(s)| ==> !IsMarkupChar(EscapeHtml(s)[i])
  {
    EscapeHtmlIsEscapeEach(s);
    EscapeEachSafe(s);
  }

  /** A sequence is not a prefix of one it differs from at a shared index. */
  lemma DiffersAt(p: string, s: string, k: nat)
    requires k < |p| && k < |s| && p[k] != s[k]
    ensures !(p <= s)
  {
  }

  lemma UnescapeCons(c: char, rest: string)
    ensures Unescape(EscapeChar(c) + rest) == [c] + Unescape(rest)
  {
    var s := EscapeChar(c) + rest;
    if c == '&' {
      assert "&amp;" <= s && s[5..] == rest;
    } else if c == '<' {
      DiffersAt("&amp;", s, 1);
      assert "&lt;" <= s && s[4..] == rest;
    } else if c == '>' {
      DiffersAt("&amp;", s, 1);
      DiffersAt("&lt;", s, 1);
      assert "&gt;" <= s && s[4..] == rest;
    } else if c == '"' {
      DiffersAt("&amp;", s, 1);
      DiffersAt("&lt;", s, 1);
      DiffersAt("&gt;", s, 1);
      assert "&quot;" <= s && s[6..] == rest;
    } else if c == '\'' {
      DiffersAt("&amp;", s, 1);
      DiffersAt("&lt;", s, 1);
      DiffersAt("&gt;", s, 1);
      DiffersAt("&quot;", s, 1);
      assert "&#39;" <= s && s[5..] == rest;
    } else {
      assert s[0] == c && s[1..] == rest;
      DiffersAt("&amp;", s, 0);
      DiffersAt("&lt;", s, 0);
      DiffersAt("&gt;", s, 0);
      DiffersAt("&quot;", s, 0);
      DiffersAt("&#39;", s, 0);
    }
  }

  /** Unescaping gives the input back: `escapeHtml` loses nothing. */
  lemma {:induction false} UnescapeEscape(s: string)
    ensures Unescape(EscapeHtml(s)) == s
  {
    if s != [] {
      assert s == [s[0]] + s[1..];
      EscapeHtmlCons(s[0], s[1..]);
      UnescapeCons(s[0], EscapeHtml(s[1..]));
      UnescapeEscape(s[1..]);
    }
  }
}

/** `highlightHtml`: the text cut at the match rows, each piece escaped, each
    match wrapped in a `<mark>`, the whole in a `<pre>`. */
module Highlight {
  import opened Seqs
  import opened Text
  import opened HtmlEscape
  import opened RegexMatching

  const MarkOpen: string := "<mark class=\"mk\">"
  const MarkClose: string := "</mark>"
  const PreOpen: string := "<pre class=\"pre\">"
  const PreClose: string := "</pre>"

  /** A match as the highlighter writes it: escaped, inside a `<mark>`. */
  function Marked(s: string): string {
    MarkOpen + EscapeHtml(s) + MarkClose
  }

  /** `s.slice(from, to)` for non-negative bounds: both are clamped to the
      length, and a reversed range is empty. */
  function Slice(s: string, from: nat, to: nat): (r: string)
    ensures from <= to <= |s| ==> r == s[from..to]
    ensures |s| <= from || to <= from ==> r == []
    ensures |r| <= |s|
  {
    var a := if from < |s| then from else |s|;
    var b := if to < |s| then to else |s|;
    if a < b then s[a..b] else []
  }

  /** The pieces the loop pushes from the rows `rows` on, with the cursor at
      `cursor`: a row starting before the cursor is skipped; otherwise the
      escaped gap before it and the marked, escaped match; finally the escaped
      rest of the text. */
  function Parts(txt: string, rows: seq<MatchRow>, cursor: nat): seq<string>
    decreases |rows|
  {
    if rows == [] then [EscapeHtml(Slice(txt, cursor, |txt|))]
    else if rows[0].start < cursor then Parts(txt, rows[1..], cursor)
    else
      [EscapeHtml(Slice(txt, cursor, rows[0].start)), Marked(Slice(txt, rows[0].start, rows[0].end))]
      + Parts(txt, rows[1..], rows[0].end)
  }

  /** The markup for text and rows once the early exits are passed. */
  function Highlighted(txt: string, rows: seq<MatchRow>): string {
    PreOpen + Concat(Parts(txt, rows, 0)) + PreClose
  }

  /** The loop over the rows, with its `parts` array and `cursor`. */
  method RenderRows(txt: string, rows: seq<MatchRow>) returns (html: string)
    ensures html == Highlighted(txt, rows)
  {
    var parts: seq<string> := [];
    var cursor: nat := 0;
    for i := 0 to |rows|
      invariant parts + Parts(txt, rows[i..], cursor) == Parts(txt, rows, 0)
    {
      var r := rows[i];
      assert rows[i..][1..] == rows[i + 1..];
      if r.start < cursor {
        continue;
      }
      ghost var rest := Parts(txt, rows[i + 1..], r.end);
      var gap := EscapeHtml(Slice(txt, cursor, r.start));
      var marked := Marked(Slice(txt, r.start, r.end));
      assert parts + ([gap, marked] + rest) == (parts + [gap, marked]) + rest;
      parts := parts + [gap, marked];
      cursor := r.end;
    }
    parts := parts + [EscapeHtml(Slice(txt, cursor, |txt|))];
    html := PreOpen + Concat(parts) + PreClose;
  }

  /** Removes the four tags the highlighter writes; everything else is kept. */
  function StripTags(s: string): string
    decreases |s|
  {
    if s == [] then []
    else if MarkOpen <= s then StripTags(s[|MarkOpen|..])
    else if MarkClose <= s then StripTags(s[|MarkClose|..])
    else if PreOpen <= s then StripTags(s[|PreOpen|..])
    else if PreClose <= s then StripTags(s[|PreClose|..])
    else [s[0]] + StripTags(s[1..])
  }

  /** What a reader of the markup sees: tags removed, entities decoded. */
  function PlainText(html: string): string {
    Unescape(StripTags(html))
  }

  lemma {:induction false} StripTagsPlain(x: string, rest: string)
    requires forall i :: 0 <= i < |x| ==> x[i] != '<'
    ensures StripTags(x + rest) == x + StripTags(rest)
  {
    if x != [] {
      var s := x + rest;
      assert s[0] == x[0] && s[1..] == x[1..] + rest;
      DiffersAt(MarkOpen, s, 0);
      DiffersAt(MarkClose, s, 0);
      DiffersAt(PreOpen, s, 0);
      DiffersAt(PreClose, s, 0);
      assert StripTags(s) == [x[0]] + StripTags(x[1..] + rest);
      StripTagsPlain(x[1..], rest);
      AppendAssoc([x[0]], x[1..], StripTags(rest));
      assert [x[0]] + x[1..] == x;
    } else {
      assert x + rest == rest;
    }
  }

  lemma StripTagsEscaped(a: string, rest: string)
    ensures StripTags(EscapeHtml(a) + rest) == EscapeHtml(a) + StripTags(rest)
  {
    EscapeHtmlSafe(a);
    StripTagsPlain(EscapeHtml(a), rest);
  }

  lemma StripTagsAfter(tag: string, rest: string)
    requires tag == MarkOpen || tag == MarkClose || tag == PreOpen || tag == PreClose
    ensures StripTags(tag + rest) == StripTags(rest)
  {
    var s := tag + rest;
    assert s[|tag|..] == rest;
    if tag == MarkClose {
      DiffersAt(MarkOpen, s, 1);
    } else if tag == PreOpen {
      DiffersAt(MarkOpen, s, 1);
      DiffersAt(MarkClose, s, 1);
    } else if tag == PreClose {
      DiffersAt(MarkOpen, s, 1);
      DiffersAt(MarkClose, s, 2);
      DiffersAt(PreOpen, s, 1);
    }
  }

  /** Every row lies within the text. */
  predicate RowsInside(rows: seq<MatchRow>, n: nat) {
    forall k :: 0 <= k < |rows| ==> rows[k].start <= rows[k].end <= n
  }

  /** One marked match and the gap before it, stripped. */
  lemma StripMarked(gap: string, body: string, rest: string)
    ensures StripTags(EscapeHtml(gap) + (MarkOpen + (EscapeHtml(body) + (MarkClose + rest)))) ==
            EscapeHtml(gap) + (EscapeHtml(body) + StripTags(rest))
  {
    StripTagsEscaped(gap, MarkOpen + (EscapeHtml(body) + (MarkClose + rest)));
    StripTagsAfter(MarkOpen, EscapeHtml(body) + (MarkClose + rest));
    StripTagsEscaped(body, MarkClose + rest);
    StripTagsAfter(MarkClose, rest);
  }

  /** The odd-indexed elements after a two-element prefix. */
  lemma IndexAfterPair<T>(p: seq<T>, a: T, b: T, q: seq<T>, k: nat)
    requires p == [a, b] + q && 1 <= k && 2 * k + 1 < |p|
    ensures p[2 * k + 1] == q[2 * (k - 1) + 1]
  {
  }

  /** One step of `Parts` when the first row is not skipped. */
  lemma PartsStep(txt: string, rows: seq<MatchRow>, cursor: nat)
    requires rows != [] && cursor <= rows[0].start
    ensures Parts(txt, rows, cursor) ==
      [EscapeHtml(Slice(txt, cursor, rows[0].start)), Marked(Slice(txt, rows[0].start, rows[0].end))] +
      Parts(txt, rows[1..], rows[0].end)
  {
  }

  /** The joined pieces when the first row is not skipped. */
  lemma ConcatPartsStep(txt: string, rows: seq<MatchRow>, cursor: nat)
    requires rows != [] && cursor <= rows[0].start
    ensures Concat(Parts(txt, rows, cursor)) ==
      EscapeHtml(Slice(txt, cursor, rows[0].start)) +
      (MarkOpen + (EscapeHtml(Slice(txt, rows[0].start, rows[0].end)) +
      (MarkClose + Concat(Parts(txt, rows[1..], rows[0].end)))))
  {
    var gap := EscapeHtml(Slice(txt, cursor, rows[0].start));
    var marked := Marked(Slice(txt, rows[0].start, rows[0].end));
    var rest := Parts(txt, rows[1..], rows[0].end);
    var e := EscapeHtml(Slice(txt, rows[0].start, rows[0].end));
    assert Parts(txt, rows, cursor) == [gap] + ([marked] + rest);
    ConcatCons(gap, [marked] + rest);
    ConcatCons(marked, rest);
    AppendAssoc(MarkOpen + e, MarkClose, Concat(rest));
    AppendAssoc(MarkOpen, e, MarkClose + Concat(rest));
  }

  /** Stripping the tags of the pieces from `cursor` on, and of whatever
      follows them, leaves the escaped rest of the text. */
  lemma {:induction false} StripParts(txt: string, rows: seq<MatchRow>, cursor: nat, after: string)
    requires cursor <= |txt| && RowsInside(rows, |txt|)
    ensures StripTags(Concat(Parts(txt, rows, cursor)) + after) == EscapeHtml(txt[cursor..]) + StripTags(after)
    decreases |rows|
  {
    if rows == [] {
      var e := EscapeHtml(txt[cursor..]);
      assert Slice(txt, cursor, |txt|) == txt[cursor..];
      assert Parts(txt, rows, cursor) == [e];
      ConcatCons(e, []);
      assert [e] + [] == [e];
      assert Concat([e]) == e + "";
      assert e + "" == e;
      StripTagsEscaped(txt[cursor..], after);
    } else if rows[0].start < cursor {
      StripParts(txt, rows[1..], cursor, after);
    } else {
      var r := rows[0];
      var gap, body, later := txt[cursor..r.start], txt[r.start..r.end], txt[r.end..];
      var eg, eb, el := EscapeHtml(gap), EscapeHtml(body), EscapeHtml(later);
      var tail := Concat(Parts(txt, rows[1..], r.end));
      var sa := StripTags(after);
      ConcatPartsStep(txt, rows, cursor);
      calc {
        Concat(Parts(txt, rows, cursor)) + after;
        (eg + (MarkOpen + (eb + (MarkClose + tail)))) + after;
        { AppendAssoc(eg, MarkOpen + (eb + (MarkClose + tail)), after); }
        eg + ((MarkOpen + (eb + (MarkClose + tail))) + after);
        { AppendAssoc(MarkOpen, eb + (MarkClose + tail), after); }
        eg + (MarkOpen + ((eb + (MarkClose + tail)) + after));
        { AppendAssoc(eb, MarkClose + tail, after); }
        eg + (MarkOpen + (eb + ((MarkClose + tail) + after)));
        { AppendAssoc(MarkClose, tail, after); }
        eg + (MarkOpen + (eb + (MarkClose + (tail + after))));
      }
      StripParts(txt, rows[1..], r.end, after);
      StripMarked(gap, body, tail + after);
      EscapeHtmlAppend(body, later);
      EscapeHtmlAppend(gap, body + later);
      calc {
        eg + (eb + (el + sa));
        { AppendAssoc(eb, el, sa); }
        eg + ((eb + el) + sa);
        { AppendAssoc(eg, eb + el, sa); }
        (eg + (eb + el)) + sa;
        EscapeHtml(gap + (body + later)) + sa;
        { SliceJoinTail(txt, r.start, r.end);
          SliceJoinTail(txt, cursor, r.start); }
        EscapeHtml(txt[cursor..]) + sa;
      }
    }
  }

  /** The highlighter's round trip: for rows within the text, removing the
      `<pre>` and `<mark>` tags and decoding the entities gives back the text,
      whatever rows were skipped. */
  lemma HighlightRoundTrip(txt: string, rows: seq<MatchRow>)
    requires RowsInside(rows, |txt|)
    ensures PlainText(Highlighted(txt, rows)) == txt
  {
    var body := Concat(Parts(txt, rows, 0));
    var e := EscapeHtml(txt[0..]);
    assert txt[0..] == txt;
    assert PreClose + "" == PreClose;
    StripTagsAfter(PreClose, "");
    assert StripTags(PreClose) == "";
    calc {
      StripTags(Highlighted(txt, rows));
      StripTags((PreOpen + body) + PreClose);
      { AppendAssoc(PreOpen, body, PreClose); }
      StripTags(PreOpen + (body + PreClose));
      { StripTagsAfter(PreOpen, body + PreClose); }
      StripTags(body + PreClose);
      { StripParts(txt, rows, 0, PreClose); }
      e + StripTags(PreClose);
      e + "";
      EscapeHtml(txt);
    }
    UnescapeEscape(txt);
  }

  /** Consecutive rows do not overlap. */
  predicate RowsOrdered(rows: seq<MatchRow>) {
    forall k :: 0 <= k < |rows| - 1 ==> rows[k].end <= rows[k + 1].start
  }

  /** When the rows are ordered and start at or after the cursor, no row is
      skipped: the pieces alternate gap, mark, gap, ..., and the `k`-th mark
      wraps the escaped text of row `k`. */
  lemma {:induction false} MarksFollowRows(txt: string, rows: seq<MatchRow>, cursor: nat)
    requires RowsInside(rows, |txt|) && RowsOrdered(rows)
    requires rows != [] ==> cursor <= rows[0].start
    ensures |Parts(txt, rows, cursor)| == 2 * |rows| + 1
    ensures forall k :: 0 <= k < |rows| ==>
      Parts(txt, rows, cursor)[2 * k + 1] == Marked(txt[rows[k].start..rows[k].end])
    decreases |rows|
  {
    if rows != [] {
      var rest := rows[1..];
      MarksFollowRows(txt, rest, rows[0].end);
      var p := Parts(txt, rows, cursor);
      var q := Parts(txt, rest, rows[0].end);
      var gap := EscapeHtml(Slice(txt, cursor, rows[0].start));
      var first := Marked(Slice(txt, rows[0].start, rows[0].end));
      PartsStep(txt, rows, cursor);
      assert p == [gap, first] + q;
      assert first == Marked(txt[rows[0].start..rows[0].end]);
      forall k | 0 < k < |rows|
        ensures p[2 * k + 1] == Marked(txt[rows[k].start..rows[k].end])
      {
        assert rows[k] == rest[k - 1];
        IndexAfterPair(p, gap, first, q, k);
      }
    }
  }

  /** On the rows of the match loop the highlighter marks every match, in
      order, each mark holding exactly the escaped matched text. */
  lemma ScanRowsAllMarked(exec: RegexHost.Exec, re: RegexHost.Regex, txt: string)
    ensures var rows := Scan(exec, re, txt, 0, 0);
      |Parts(txt, rows, 0)| == 2 * |rows| + 1 &&
      forall k :: 0 <= k < |rows| ==>
        Parts(txt, rows, 0)[2 * k + 1] == Marked(rows[k].text)
  {
    var rows := Scan(exec, re, txt, 0, 0);
    ScanRows(exec, re, txt, 0, 0);
    MarksFollowRows(txt, rows, 0);
  }

}
