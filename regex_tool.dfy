/** The regex playground component (`RegexTool`): its input fields, the
    values computed from them, and the actions that reset them. */
module RegexPlayground {
  import opened Wrappers
  import opened Seqs
  import opened Text
  import opened RegexHost
  import opened RegexFlags
  import opened RegexMatching
  import opened HtmlEscape
  import opened Highlight

  datatype Mode = MatchMode | ReplaceMode

  /** The `compiled` value: no pattern yet, a pattern the host rejected
      (with its message), or a compiled regex. */
  datatype Compilation = Idle | Err(message: string) | Ok(re: Regex)

  datatype Status = StatusIdle | StatusOk | StatusErr

  const DefaultCompileError := "Error al compilar la regex"

  /** `compiled` for a pattern and normalised flags: a blank pattern is idle,
      otherwise the host builds the regex or throws. */
  function CompilePattern(construct: (string, string) -> Construction, pattern: string, flags: string): (c: Compilation)
    ensures c.Idle? <==> IsBlank(pattern)
    ensures c.Ok? <==> !IsBlank(pattern) && construct(pattern, flags).Built?
    ensures c.Ok? ==> c.re == Regex(pattern, flags)
    ensures c.Err? ==> c.message == construct(pattern, flags).message.GetOr(DefaultCompileError)
  {
    if IsBlank(pattern) then Idle
    else match construct(pattern, flags)
      case Built => Ok(Regex(pattern, flags))
      case Threw(msg) => Err(msg.GetOr(DefaultCompileError))
  }

  /** The regex the match loop iterates with: the source rebuilt with 'g'
      added to the flags, or the compiled regex itself if that throws. */
  function IterationRegex(construct: (string, string) -> Construction, re: Regex, flags: string): (r: Regex)
    ensures r.source == re.source
    ensures construct(re.source, IterFlags(flags)).Built? ==> 'g' in r.flags
  {
    var iterFlags := IterFlags(flags);
    if construct(re.source, iterFlags).Built? then Regex(re.source, iterFlags) else re
  }

  /** The rows `matches` lists for a compilation, flags, pattern and text. */
  function Listing(host: Host, c: Compilation, flags: string, pattern: string, txt: string): (rows: seq<MatchRow>)
    ensures rows != [] ==> c.Ok? && txt != [] && !IsBlank(pattern)
    ensures |rows| <= SafetyLimit + 1
    ensures forall k :: 0 <= k < |rows| ==>
      rows[k].index == k && rows[k].end == rows[k].start + |rows[k].text| &&
      rows[k].end <= |txt| && rows[k].text == txt[rows[k].start..rows[k].end]
    ensures forall k :: 0 <= k < |rows| - 1 ==>
      rows[k].end <= rows[k + 1].start && rows[k].start < rows[k + 1].start
  {
    if !c.Ok? || txt == [] || IsBlank(pattern) then []
    else
      var re := IterationRegex(host.construct, c.re, flags);
      ScanListing(host.exec, re, txt);
      Scan(host.exec, re, txt, 0, 0)
  }

  /** The `replaceResult` value for a mode, compilation and inputs. */
  function Replaced(mode: Mode, c: Compilation, pattern: string, txt: string, replacement: string,
                    replace: Replacer): (r: string)
    ensures r != "" ==> mode == ReplaceMode && c.Ok? && txt != [] && replace(c.re, txt, replacement) == Some(r)
    ensures mode == ReplaceMode && c.Ok? && txt != [] && !IsBlank(pattern) ==>
              r == replace(c.re, txt, replacement).GetOr("")
  {
    if mode == ReplaceMode && c.Ok? && txt != [] && !IsBlank(pattern) then
      replace(c.re, txt, replacement).GetOr("")
    else ""
  }

  const ExamplePattern := "(\\w+)@(\\w+(?:\\.\\w+)+)"
  const ExampleFlags := "gi"
  const ExampleText := "Contactos:\n - dev@acme.com\n - DEV@Example.org\n - not-an-email\nFin."
  const ExampleReplacement := "[$1] at [$2]"

  /** The sample flags are already normalised. */
  lemma ExampleFlagsNormalized()
    ensures NormalizedFlags(ExampleFlags) == "gi"
  {
    assert Lower("gi") == "gi";
    assert Filter(IsAllowedFlag, "gi") == "gi";
    assert Distinct("gi") == "gi";
  }

  class RegexTool {
    /** The host's RegExp, constructor, `exec` and `replace`. */
    const host: Host

    var mode: Mode
    var pattern: string
    var flagsRaw: string
    var text: string
    var replacement: string
    var copyMsg: string

    /** Every field at its initial value. */
    predicate IsInitial()
      reads this
    {
      mode == MatchMode && pattern == "" && flagsRaw == "g" && text == "" &&
      replacement == "$1" && copyMsg == ""
    }

    constructor(host: Host)
      ensures this.host == host && IsInitial()
    {
      this.host := host;
      mode := MatchMode;
      pattern := "";
      flagsRaw := "g";
      text := "";
      replacement := "$1";
      copyMsg := "";
    }

    /** The `flags` computed value. */
    function Flags(): (f: string)
      reads this
      ensures forall c :: c in f <==> IsAllowedFlag(c) && c in Lower(flagsRaw)
      ensures NoDup(f)
    {
      NormalizedFlagsShape(flagsRaw);
      NormalizedFlags(flagsRaw)
    }

    /** The `compiled` computed value. */
    function Compiled(): (c: Compilation)
      reads this
      ensures c.Idle? <==> IsBlank(pattern)
      ensures c.Ok? ==> c.re == Regex(pattern, Flags())
    {
      CompilePattern(host.construct, pattern, Flags())
    }

    /** `statusType`: idle exactly when the pattern is blank, an error
        exactly when the host rejected it, ok exactly when it compiled. */
    function StatusType(): (t: Status)
      reads this
      ensures t.StatusIdle? <==> IsBlank(pattern)
      ensures t.StatusErr? <==> Compiled().Err?
      ensures t.StatusOk? <==> Compiled().Ok?
    {
      if IsBlank(pattern) && IsBlank(text) then StatusIdle
      else
        var c := Compiled();
        if !c.Ok? then (if c.Err? then StatusErr else StatusIdle)
        else StatusOk
    }

    /** `statusTitle`: one title per status. */
    function StatusTitle(): (s: string)
      reads this
      ensures s == "Listo" <==> StatusType().StatusIdle?
      ensures s == "Regex inválida" <==> StatusType().StatusErr?
      ensures s == "Regex compilada" <==> StatusType().StatusOk?
    {
      match StatusType()
      case StatusIdle => "Listo"
      case StatusErr => "Regex inválida"
      case StatusOk => "Regex compilada"
    }

    /** `statusDetail`: the host's message for a rejected pattern; a prompt
        for whichever of pattern and text is missing; otherwise nothing. */
    function StatusDetail(): (d: string)
      reads this
      ensures Compiled().Err? ==> d == Compiled().message
      ensures Compiled().Ok? ==> d == (if IsBlank(text) then "Introduce texto para evaluar." else "")
      ensures Compiled().Idle? ==> d == (if IsBlank(text) then "" else "Introduce un pattern para evaluar.")
    {
      var c := Compiled();
      if c.Err? then c.message
      else if !IsBlank(pattern) && IsBlank(text) then "Introduce texto para evaluar."
      else if IsBlank(pattern) && !IsBlank(text) then "Introduce un pattern para evaluar."
      else ""
    }

    /** What the `matches` computed value lists (see `Listing`). */
    function MatchRows(): seq<MatchRow>
      reads this
    {
      Listing(host, Compiled(), Flags(), pattern, text)
    }

    /** The `matches` computed value: the early exits, the iteration regex,
        then the loop. */
    method Matches() returns (rows: seq<MatchRow>)
      ensures rows == MatchRows()
    {
      var c := Compiled();
      var txt := text;
      if !c.Ok? {
        return [];
      }
      if txt == [] {
        return [];
      }
      if IsBlank(pattern) {
        return [];
      }
      var flags := NormalizeFlags(flagsRaw);
      var iterFlags := IterFlags(flags);
      var iterRe := c.re;
      if host.construct(c.re.source, iterFlags).Built? {
        iterRe := Regex(c.re.source, iterFlags);
      }
      rows := CollectMatches(host.exec, iterRe, txt);
    }

    /** What `highlightHtml` yields: nothing without text, without a compiled
        regex or without matches; otherwise markup whose plain text is the
        text itself. */
    function HighlightHtmlValue(): (html: string)
      reads this
      ensures html == "" <==> text == [] || !Compiled().Ok? || MatchRows() == []
      ensures html != "" ==> PlainText(html) == text
    {
      if text == [] then ""
      else if !Compiled().Ok? then ""
      else
        var rows := MatchRows();
        if rows == [] then ""
        else
          HighlightRoundTrip(text, rows);
          Highlighted(text, rows)
    }

    /** The `highlightHtml` computed value. */
    method HighlightHtml() returns (html: string)
      ensures html == HighlightHtmlValue()
    {
      var txt := text;
      if txt == [] {
        return "";
      }
      var c := Compiled();
      if !c.Ok? {
        return "";
      }
      var rows := Matches();
      if |rows| == 0 {
        return "";
      }
      html := RenderRows(txt, rows);
    }

    /** `replaceResult`: a non-empty result only in replace mode, for a
        compiled, non-blank pattern on a non-empty text, and then it is what
        the host's `replace` returned. */
    function ReplaceResult(): (r: string)
      reads this
      ensures r != "" ==> mode == ReplaceMode && Compiled().Ok? && text != [] &&
                          host.replace(Compiled().re, text, replacement) == Some(r)
      ensures mode == ReplaceMode && Compiled().Ok? && text != [] ==>
                r == host.replace(Compiled().re, text, replacement).GetOr("")
    {
      Replaced(mode, Compiled(), pattern, text, replacement, host.replace)
    }

    /** `setMode`. */
    method SetMode(m: Mode)
      modifies this
      ensures mode == m
      ensures pattern == old(pattern) && flagsRaw == old(flagsRaw) && text == old(text)
      ensures replacement == old(replacement) && copyMsg == old(copyMsg)
    {
      mode := m;
    }

    /** `clearAll`: every field back to its initial value, so the status is
        idle and nothing is listed or highlighted. */
    method ClearAll()
      modifies this
      ensures IsInitial()
      ensures StatusType() == StatusIdle && MatchRows() == [] && HighlightHtmlValue() == ""
    {
      pattern := "";
      flagsRaw := "g";
      text := "";
      replacement := "$1";
      copyMsg := "";
      mode := MatchMode;
    }

    /** `loadExample`: the sample pattern, flags, text and replacement; the
        mode is left as it was. The sample flags normalise to "gi". */
    method LoadExample()
      modifies this
      ensures pattern == ExamplePattern && flagsRaw == ExampleFlags && text == ExampleText
      ensures replacement == ExampleReplacement && copyMsg == ""
      ensures mode == old(mode)
      ensures Flags() == "gi"
    {
      pattern := ExamplePattern;
      flagsRaw := ExampleFlags;
      text := ExampleText;
      replacement := ExampleReplacement;
      copyMsg := "";
      ExampleFlagsNormalized();
    }
  }
}
