/** The host's `RegExp` as an oracle: construction, `exec` from a cursor, and
    `String.prototype.replace`. Nothing here is implemented; the types state
    what the model assumes of the host. */
module RegexHost {
  import opened Wrappers

  /** A RegExp object: its source text and its flags. */
  datatype Regex = Regex(source: string, flags: string)

  /** What `new RegExp(source, flags)` does: build the object, or throw. A
      thrown value whose `message` is a string carries it. */
  datatype Construction = Built | Threw(message: Option<string>)

  /** One successful `exec`: the match index, the whole match `m[0]` and the
      numbered captures `m[1..]` (`undefined` for a group that took no part). */
  datatype Hit = Hit(start: nat, text: string, captures: seq<Option<string>>)

  /** An `exec` result on text `txt` with `lastIndex == from` that lies in the
      text, at or after the cursor, and whose `m[0]` is the text at its index. */
  predicate WithinText(r: Option<Hit>, txt: string, from: nat) {
    r.Some? ==>
      from <= r.value.start && r.value.start + |r.value.text| <= |txt| &&
      txt[r.value.start..r.value.start + |r.value.text|] == r.value.text
  }

  ghost predicate HonoursCursor(exec: (Regex, string, nat) -> Option<Hit>) {
    forall re, txt, from :: WithinText(exec(re, txt, from), txt, from)
  }

  function NeverMatches(re: Regex, txt: string, from: nat): Option<Hit> {
    None
  }

  /** `exec` on a global regex whose `lastIndex` is the third argument. */
  type Exec = f: (Regex, string, nat) -> Option<Hit> | HonoursCursor(f) witness NeverMatches

  /** `txt.replace(re, replacement)`, `None` when it throws. */
  type Replacer = (Regex, string, string) -> Option<string>

  datatype Host = Host(
    construct: (string, string) -> Construction,
    exec: Exec,
    replace: Replacer)

  /** The oracle's guarantee, as a lemma to call where it is needed. */
  lemma ExecWithinText(exec: Exec, re: Regex, txt: string, from: nat)
    ensures WithinText(exec(re, txt, from), txt, from)
  {
  }
}

/** The match listing: the `while ((m = iterRe.exec(txt)) !== null)` loop,
    its zero-length-match rule and its safety counter. */
module RegexMatching {
  import opened Wrappers
  import opened RegexHost

  /** The loop stops once the counter exceeds this. */
  const SafetyLimit := 5000

  /** One listed match. */
  datatype MatchRow = MatchRow(index: nat, start: nat, end: nat, text: string, groups: seq<string>)

  /** `m[i] ?? ''` for every capture. */
  function CaptureTexts(captures: seq<Option<string>>): seq<string> {
    seq(|captures|, i requires 0 <= i < |captures| => captures[i].GetOr(""))
  }

  /** The inner loop that fills `groups`. */
  method GroupTexts(captures: seq<Option<string>>) returns (groups: seq<string>)
    ensures |groups| == |captures|
    ensures forall i :: 0 <= i < |captures| ==>
      groups[i] == (if captures[i].Some? then captures[i].value else "")
    ensures groups == CaptureTexts(captures)
  {
    groups := [];
    for i := 0 to |captures|
      invariant |groups| == i
      invariant forall k :: 0 <= k < i ==> groups[k] == captures[k].GetOr("")
    {
      groups := groups + [captures[i].GetOr("")];
    }
  }

  /** The row pushed for the `index`-th match. */
  function RowOf(index: nat, h: Hit): MatchRow {
    MatchRow(index, h.start, h.start + |h.text|, h.text, CaptureTexts(h.captures))
  }

  /** `lastIndex` for the next `exec`: the host leaves it at the end of the
      match, and the loop moves it one past the start of an empty match. */
  function NextCursor(h: Hit): nat {
    if |h.text| == 0 then h.start + 1 else h.start + |h.text|
  }

  /** The rows the loop emits from cursor `from` once `emitted` rows exist. */
  function Scan(exec: Exec, re: Regex, txt: string, from: nat, emitted: nat): seq<MatchRow>
    decreases |txt| + 1 - from
  {
    var m := exec(re, txt, from);
    ExecWithinText(exec, re, txt, from);
    if m.None? then []
    else
      var row := RowOf(emitted, m.value);
      if emitted + 1 > SafetyLimit then [row]
      else [row] + Scan(exec, re, txt, NextCursor(m.value), emitted + 1)
  }

  /** One step of `Scan` when `exec` finds a match. */
  lemma ScanUnfold(exec: Exec, re: Regex, txt: string, from: nat, emitted: nat)
    requires exec(re, txt, from).Some?
    ensures var h := exec(re, txt, from).value;
      Scan(exec, re, txt, from, emitted) ==
        [RowOf(emitted, h)] + (if emitted + 1 > SafetyLimit then []
                               else Scan(exec, re, txt, NextCursor(h), emitted + 1))
  {
  }

  /** The loop itself, with an explicit cursor for the regex's `lastIndex`. */
  method CollectMatches(exec: Exec, re: Regex, txt: string) returns (rows: seq<MatchRow>)
    ensures rows == Scan(exec, re, txt, 0, 0)
  {
    rows := [];
    var cursor: nat := 0;
    var safety: nat := 0;
    while true
      invariant safety == |rows| <= SafetyLimit
      invariant rows + Scan(exec, re, txt, cursor, safety) == Scan(exec, re, txt, 0, 0)
      decreases |txt| + 1 - cursor
    {
      var m := exec(re, txt, cursor);
      ExecWithinText(exec, re, txt, cursor);
      if m.None? {
        assert Scan(exec, re, txt, cursor, safety) == [];
        assert rows + [] == rows;
        break;
      }
      var full := m.value.text;
      var start := m.value.start;
      var end := start + |full|;
      var groups := GroupTexts(m.value.captures);
      var row := MatchRow(|rows|, start, end, full, groups);
      assert row == RowOf(safety, m.value);
      ScanUnfold(exec, re, txt, cursor, safety);
      ghost var tail := if safety + 1 > SafetyLimit then []
                        else Scan(exec, re, txt, NextCursor(m.value), safety + 1);
      assert rows + ([row] + tail) == (rows + [row]) + tail;
      rows := rows + [row];
      cursor := end;
      if |full| == 0 {
        cursor := start + 1;
      }
      assert cursor == NextCursor(m.value);
      safety := safety + 1;
      if safety > SafetyLimit {
        assert rows + [] == rows;
        break;
      }
    }
  }

  /** What every row of a scan satisfies: `index` is its position (offset by
      the rows already emitted), `end` is `start` plus the match length, the
      text is the matched slice, every row lies at or after the cursor; and
      consecutive rows neither overlap nor repeat a start. */
  lemma {:induction false} ScanRows(exec: Exec, re: Regex, txt: string, from: nat, emitted: nat)
    ensures forall k :: 0 <= k < |Scan(exec, re, txt, from, emitted)| ==>
      var r := Scan(exec, re, txt, from, emitted)[k];
      r.index == emitted + k && from <= r.start && r.end == r.start + |r.text| &&
      r.end <= |txt| && r.text == txt[r.start..r.end]
    ensures forall k :: 0 <= k < |Scan(exec, re, txt, from, emitted)| - 1 ==>
      Scan(exec, re, txt, from, emitted)[k].end <= Scan(exec, re, txt, from, emitted)[k + 1].start &&
      Scan(exec, re, txt, from, emitted)[k].start < Scan(exec, re, txt, from, emitted)[k + 1].start
    decreases |txt| + 1 - from
  {
    var m := exec(re, txt, from);
    ExecWithinText(exec, re, txt, from);
    if m.Some? && emitted + 1 <= SafetyLimit {
      var next := NextCursor(m.value);
      ScanRows(exec, re, txt, next, emitted + 1);
      var rest := Scan(exec, re, txt, next, emitted + 1);
      assert Scan(exec, re, txt, from, emitted) == [RowOf(emitted, m.value)] + rest;
    }
  }

  /** The safety counter bounds the listing: at most `SafetyLimit + 1` rows,
      since the counter is compared after the push. */
  lemma {:induction false} ScanBounded(exec: Exec, re: Regex, txt: string, from: nat, emitted: nat)
    requires emitted <= SafetyLimit
    ensures |Scan(exec, re, txt, from, emitted)| <= SafetyLimit + 1 - emitted
    decreases |txt| + 1 - from
  {
    var m := exec(re, txt, from);
    ExecWithinText(exec, re, txt, from);
    if m.Some? && emitted + 1 <= SafetyLimit {
      ScanBounded(exec, re, txt, NextCursor(m.value), emitted + 1);
    }
  }

  /** The listing from the start of the text, as the component sees it: at
      most `SafetyLimit + 1` rows, each numbered by its position and holding
      the matched slice, in text order without overlap. */
  lemma ScanListing(exec: Exec, re: Regex, txt: string)
    ensures var rows := Scan(exec, re, txt, 0, 0);
      |rows| <= SafetyLimit + 1 &&
      (forall k :: 0 <= k < |rows| ==>
        rows[k].index == k && rows[k].end == rows[k].start + |rows[k].text| &&
        rows[k].end <= |txt| && rows[k].text == txt[rows[k].start..rows[k].end]) &&
      (forall k :: 0 <= k < |rows| - 1 ==>
        rows[k].end <= rows[k + 1].start && rows[k].start < rows[k + 1].start)
  {
    ScanRows(exec, re, txt, 0, 0);
    ScanBounded(exec, re, txt, 0, 0);
  }

  /** A matcher that matches the empty string at every position, as `x*` does
      on a text without `x`. */
  function EmptyEverywhere(re: Regex, txt: string, from: nat): Option<Hit> {
    if from <= |txt| then Some(Hit(from, "", [])) else None
  }

  /** With an empty match at every position the zero-length rule visits every
      gap once: rows start at `from`, `from + 1`, ... up to `|txt|`, until the
      safety counter stops the loop. */
  lemma {:induction false} EmptyMatchesVisitEveryGap(re: Regex, txt: string, from: nat, emitted: nat)
    requires from <= |txt| + 1 && emitted <= SafetyLimit
    ensures var n := if |txt| + 1 - from < SafetyLimit + 1 - emitted
                     then |txt| + 1 - from else SafetyLimit + 1 - emitted;
      |Scan(EmptyEverywhere, re, txt, from, emitted)| == n &&
      forall k :: 0 <= k < n ==> Scan(EmptyEverywhere, re, txt, from, emitted)[k].start == from + k
    decreases |txt| + 1 - from
  {
    if from <= |txt| && emitted + 1 <= SafetyLimit {
      EmptyMatchesVisitEveryGap(re, txt, from + 1, emitted + 1);
    }
  }

  /** The bound of `ScanBounded` is reached: on a text of 5000 characters or
      more an everywhere-empty pattern yields exactly 5001 rows. */
  lemma SafetyBoundIsReached(re: Regex, txt: string)
    requires |txt| >= SafetyLimit
    ensures |Scan(EmptyEverywhere, re, txt, 0, 0)| == SafetyLimit + 1
  {
    EmptyMatchesVisitEveryGap(re, txt, 0, 0);
  }

  /** The four insertion points of "abc": an empty match at 0, 1, 2 and 3. */
  lemma EmptyPatternOnAbc(re: Regex)
    ensures |Scan(EmptyEverywhere, re, "abc", 0, 0)| == 4
    ensures forall k :: 0 <= k < 4 ==>
      Scan(EmptyEverywhere, re, "abc", 0, 0)[k].start == k &&
      Scan(EmptyEverywhere, re, "abc", 0, 0)[k].text == ""
  {
    EmptyMatchesVisitEveryGap(re, "abc", 0, 0);
    ScanRows(EmptyEverywhere, re, "abc", 0, 0);
  }
}
