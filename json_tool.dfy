/** Reading the approximate error position out of a parser message, and
    writing a natural number in decimal. */
module ErrorPosition {
  import opened Wrappers
  import opened Text

  predicate IsDigit(c: char) {
    '0' <= c <= '9'
  }

  function DigitValue(c: char): nat {
    if IsDigit(c) then (c as int - '0' as int) else 0
  }

  function DigitChar(d: nat): char
    requires d < 10
  {
    ('0' as int + d) as char
  }

  /** The number a run of decimal digits denotes. */
  function DigitsValue(ds: string): nat {
    if ds == [] then 0 else DigitsValue(ds[..|ds| - 1]) * 10 + DigitValue(ds[|ds| - 1])
  }

  /** `${n}` for a natural number: its decimal digits, no leading zero. */
  function Decimal(n: nat): (s: string)
    ensures |s| >= 1 && forall i :: 0 <= i < |s| ==> IsDigit(s[i])
    ensures |s| > 1 ==> s[0] != '0'
  {
    if n < 10 then [DigitChar(n)] else Decimal(n / 10) + [DigitChar(n % 10)]
  }

  /** Reading the decimal digits of `n` gives `n` back. */
  lemma {:induction false} DecimalRoundTrip(n: nat)
    ensures DigitsValue(Decimal(n)) == n
  {
    if n >= 10 {
      var s := Decimal(n);
      assert s[..|s| - 1] == Decimal(n / 10);
      DecimalRoundTrip(n / 10);
    }
  }

  /** The length of the longest prefix of `s` whose characters satisfy `p`. */
  function RunLength(p: char -> bool, s: string): (n: nat)
    ensures n <= |s|
    ensures forall k :: 0 <= k < n ==> p(s[k])
    ensures n < |s| ==> !p(s[n])
  {
    if s == [] || !p(s[0]) then 0 else 1 + RunLength(p, s[1..])
  }

  const Keyword := "position"

  /** The keyword at index `i`, each letter in either ASCII case (what the
      `i` flag allows outside unicode mode). */
  predicate KeywordAt(msg: string, i: nat) {
    i + 8 <= |msg| &&
    LowerChar(msg[i]) == 'p' && LowerChar(msg[i + 1]) == 'o' && LowerChar(msg[i + 2]) == 's' &&
    LowerChar(msg[i + 3]) == 'i' && LowerChar(msg[i + 4]) == 't' && LowerChar(msg[i + 5]) == 'i' &&
    LowerChar(msg[i + 6]) == 'o' && LowerChar(msg[i + 7]) == 'n'
  }

  /** Whether `/position\s+(\d+)/i` matches at index `i`: the keyword, at
      least one whitespace character, then a digit. The whitespace run is
      greedy and cannot give way to a digit, so this is the only way a match
      can start at `i`. */
  predicate MatchesAt(msg: string, i: nat) {
    KeywordAt(msg, i) &&
    var w := RunLength(IsJsWhitespace, msg[i + 8..]);
    w >= 1 && i + 8 + w < |msg| && IsDigit(msg[i + 8 + w])
  }

  /** The digits the capture group takes at a match at `i`: the longest digit
      run after the whitespace. */
  function CapturedDigits(msg: string, i: nat): string
    requires MatchesAt(msg, i)
  {
    var j := i + 8 + RunLength(IsJsWhitespace, msg[i + 8..]);
    msg[j..j + RunLength(IsDigit, msg[j..])]
  }

  /** The leftmost index at or after `from` where the pattern matches. */
  function FirstMatchFrom(msg: string, from: nat): (r: Option<nat>)
    ensures r.None? <==> forall i :: from <= i <= |msg| ==> !MatchesAt(msg, i)
    ensures r.Some? ==> from <= r.value && MatchesAt(msg, r.value) &&
                        forall i :: from <= i < r.value ==> !MatchesAt(msg, i)
    decreases |msg| - from
  {
    if from > |msg| then None
    else if MatchesAt(msg, from) then Some(from)
    else FirstMatchFrom(msg, from + 1)
  }

  /** `extractPosition`: the decimal value of the digits captured by the
      leftmost match of `/position\s+(\d+)/i`, or nothing. */
  function ExtractPosition(message: string): Option<nat> {
    match FirstMatchFrom(message, 0)
    case None => None
    case Some(i) => Some(DigitsValue(CapturedDigits(message, i)))
  }

  /** What `extractPosition` promises: nothing exactly when the pattern
      matches nowhere; otherwise the value of the digits captured at the
      leftmost match. */
  lemma ExtractPositionLeftmost(message: string)
    ensures ExtractPosition(message).None? <==> forall i :: 0 <= i <= |message| ==> !MatchesAt(message, i)
    ensures ExtractPosition(message).Some? ==>
      exists i :: 0 <= i <= |message| && MatchesAt(message, i) &&
        (forall j :: 0 <= j < i ==> !MatchesAt(message, j)) &&
        ExtractPosition(message).value == DigitsValue(CapturedDigits(message, i))
  {
  }

  /** A match starts with a 'p' of either case. */
  lemma MatchStartsWithP(msg: string, i: nat)
    requires MatchesAt(msg, i)
    ensures i < |msg| && LowerChar(msg[i]) == 'p'
  {
  }

  /** The keyword, one space and the digits of `n` match at their start and
      capture exactly those digits. */
  lemma KeywordThenDecimal(msg: string, i: nat, n: nat)
    requires i <= |msg| && msg[i..] == "position " + Decimal(n)
    ensures MatchesAt(msg, i) && CapturedDigits(msg, i) == Decimal(n)
  {
    var d := Decimal(n);
    var k := i + 8;
    assert msg[i..] == "position " + d;
    assert msg[i] == 'p' && msg[i + 1] == 'o' && msg[i + 2] == 's' && msg[i + 3] == 'i';
    assert msg[i + 4] == 't' && msg[i + 5] == 'i' && msg[i + 6] == 'o' && msg[i + 7] == 'n';
    assert msg[k..] == " " + d;
    assert RunLength(IsJsWhitespace, msg[k..]) == 1;
    assert msg[k + 1..] == d;
    assert msg[k + 1] == d[0];
    assert RunLength(IsDigit, d) == |d|;
  }

  /** A message ending in "position N", after a prefix in which no character
      is a 'p' of either case, yields N. */
  lemma PositionOfMessage(prefix: string, n: nat)
    requires forall k :: 0 <= k < |prefix| ==> LowerChar(prefix[k]) != 'p'
    ensures ExtractPosition(prefix + "position " + Decimal(n)) == Some(n)
  {
    var msg := prefix + "position " + Decimal(n);
    var i := |prefix|;
    forall j | 0 <= j < i ensures !MatchesAt(msg, j) {
      if MatchesAt(msg, j) {
        MatchStartsWithP(msg, j);
      }
    }
    assert msg[i..] == "position " + Decimal(n);
    KeywordThenDecimal(msg, i, n);
    DecimalRoundTrip(n);
    ExtractPositionLeftmost(msg);
  }

  /** Where the lower-cased message does not hold the keyword, no match. */
  lemma NoMatchWithoutKeyword(message: string, i: nat)
    requires !Contains(Lower(message), Keyword)
    ensures !MatchesAt(message, i)
  {
    if MatchesAt(message, i) {
      var l := Lower(message);
      var w := l[i..i + 8];
      forall t | 0 <= t < 8 ensures w[t] == Keyword[t] {
        assert w[t] == LowerChar(message[i + t]);
      }
      assert w == Keyword;
      assert OccursAt(l, Keyword, i);
    }
  }

  /** A message without the keyword in any case yields nothing. */
  lemma NoKeywordNoPosition(message: string)
    requires !Contains(Lower(message), Keyword)
    ensures ExtractPosition(message) == None
  {
    forall i | 0 <= i <= |message| ensures !MatchesAt(message, i) {
      NoMatchWithoutKeyword(message, i);
    }
    ExtractPositionLeftmost(message);
  }
}

/** The JSON tool component (`JsonTool`): an input, a validation state kept
    up to date with it, and an output produced on demand. */
module JsonToolComponent {
  import opened Wrappers
  import opened Text
  import opened JsonValues
  import opened ErrorPosition

  datatype JsonMode = Pretty | Minify

  datatype Status = StatusIdle | StatusOk | StatusErr

  /** The three validation fields: `parsedOk`, `errorMessage`, `errorPosition`. */
  datatype Validation = Validation(parsedOk: bool, errorMessage: string, errorPosition: Option<nat>)

  const UnknownParseError := "Unknown error parsing JSON"
  const EmptyInputPrompt := "Pega un JSON para validar o transformar."

  /** The validation state before any input. */
  const Cleared := Validation(false, "", None)

  /** A success clears the error fields. */
  predicate Consistent(v: Validation) {
    v.parsedOk ==> v.errorMessage == "" && v.errorPosition == None
  }

  /** The state `tryParse` leaves for a parser outcome: success clears the
      error; a thrown `Error` records its message and the position read from
      it; anything else thrown records a fixed message and leaves the
      position as it was. */
  function AfterParse(outcome: ParseOutcome, before: Validation): (v: Validation)
    ensures v.parsedOk <==> outcome.Parsed?
    ensures Consistent(v)
    ensures outcome.Threw? && outcome.message.Some? ==>
      v.errorMessage == outcome.message.value && v.errorPosition == ExtractPosition(outcome.message.value)
    ensures outcome.Threw? && outcome.message.None? ==>
      v.errorMessage == UnknownParseError && v.errorPosition == before.errorPosition
  {
    match outcome
    case Parsed(_) => Validation(true, "", None)
    case Threw(Some(msg)) => Validation(false, msg, ExtractPosition(msg))
    case Threw(None) => Validation(false, UnknownParseError, before.errorPosition)
  }

  /** The state `validateOnly(raw)` leaves: blank input resets it; otherwise
      it is that of `tryParse`. */
  function AfterValidate(parse: Parser, raw: string, before: Validation): (v: Validation)
    ensures IsBlank(raw) ==> v == Cleared
    ensures !IsBlank(raw) ==> (v.parsedOk <==> parse(raw).Parsed?)
    ensures Consistent(v)
  {
    if IsBlank(raw) then Cleared else AfterParse(parse(raw), before)
  }

  /** The text `statusDetail` shows for an input and a validation state. */
  function Detail(input: string, v: Validation): (d: string)
    ensures IsBlank(input) ==> d == EmptyInputPrompt
    ensures !IsBlank(input) && v.parsedOk ==> d == ""
    ensures !IsBlank(input) && !v.parsedOk ==>
      |v.errorMessage| <= |d| && d[..|v.errorMessage|] == v.errorMessage &&
      (v.errorPosition.None? <==> d == v.errorMessage)
  {
    if IsBlank(input) then EmptyInputPrompt
    else if v.parsedOk then ""
    else match v.errorPosition
      case None => v.errorMessage
      case Some(pos) =>
        var d := v.errorMessage + " (posición aproximada: " + Decimal(pos) + ")";
        assert d[..|v.errorMessage|] == v.errorMessage;
        d
  }

  /** The position suffix of `statusDetail` names the recorded position. */
  lemma DetailNamesPosition(input: string, v: Validation)
    requires !IsBlank(input) && !v.parsedOk && v.errorPosition.Some?
    ensures Detail(input, v) ==
      v.errorMessage + " (posición aproximada: " + Decimal(v.errorPosition.value) + ")"
    ensures DigitsValue(Decimal(v.errorPosition.value)) == v.errorPosition.value
  {
    DecimalRoundTrip(v.errorPosition.value);
  }

  class JsonTool {
    /** `JSON.parse` and the two `JSON.stringify` calls. */
    const parse: Parser
    const pretty: Json -> string
    const minified: Json -> string

    var input: string
    var output: string
    var lastMode: Option<JsonMode>
    var copyMsg: string
    var parsedOk: bool
    var errorMessage: string
    var errorPosition: Option<nat>

    function State(): Validation
      reads this
    {
      Validation(parsedOk, errorMessage, errorPosition)
    }

    /** A success never leaves an error behind. */
    predicate Valid()
      reads this
    {
      Consistent(State())
    }

    constructor(parse: Parser, pretty: Json -> string, minified: Json -> string)
      ensures this.parse == parse && this.pretty == pretty && this.minified == minified
      ensures input == "" && output == "" && lastMode == None && copyMsg == ""
      ensures State() == Cleared && Valid()
    {
      this.parse := parse;
      this.pretty := pretty;
      this.minified := minified;
      input := "";
      output := "";
      lastMode := None;
      copyMsg := "";
      parsedOk := false;
      errorMessage := "";
      errorPosition := None;
    }

    /** `statusType`: idle exactly for blank input, then ok or error by the
        last validation. */
    function StatusType(): (t: Status)
      reads this
      ensures t.StatusIdle? <==> IsBlank(input)
      ensures t.StatusOk? <==> !IsBlank(input) && parsedOk
      ensures t.StatusErr? <==> !IsBlank(input) && !parsedOk
    {
      if IsBlank(input) then StatusIdle
      else if parsedOk then StatusOk else StatusErr
    }

    /** `statusTitle`: one title per status. */
    function StatusTitle(): (s: string)
      reads this
      ensures s == "Listo" <==> StatusType().StatusIdle?
      ensures s == "JSON válido" <==> StatusType().StatusOk?
      ensures s == "JSON inválido" <==> StatusType().StatusErr?
    {
      match StatusType()
      case StatusIdle => "Listo"
      case StatusOk => "JSON válido"
      case StatusErr => "JSON inválido"
    }

    /** `statusDetail` (see `Detail`). */
    function StatusDetail(): string
      reads this
    {
      Detail(input, State())
    }

    /** `tryParse`: parse and record the outcome; the parsed value, if any. */
    method TryParse(raw: string) returns (value: Option<Json>)
      modifies this`parsedOk, this`errorMessage, this`errorPosition
      ensures State() == AfterParse(parse(raw), old(State())) && Valid()
      ensures value.Some? <==> parse(raw).Parsed?
      ensures value.Some? ==> value.value == parse(raw).value
    {
      var outcome := parse(raw);
      match outcome {
        case Parsed(v) =>
          errorMessage := "";
          errorPosition := None;
          parsedOk := true;
          return Some(v);
        case Threw(msg) =>
          if msg.Some? {
            errorMessage := msg.value;
            errorPosition := ExtractPosition(msg.value);
          } else {
            errorMessage := UnknownParseError;
          }
          parsedOk := false;
          return None;
      }
    }

    /** `validateOnly`. */
    method ValidateOnly(raw: string)
      modifies this`parsedOk, this`errorMessage, this`errorPosition
      ensures State() == AfterValidate(parse, raw, old(State())) && Valid()
    {
      if IsBlank(raw) {
        parsedOk := false;
        errorMessage := "";
        errorPosition := None;
        assert AfterValidate(parse, raw, old(State())) == Cleared;
        return;
      }
      ghost var before := State();
      var parsed := TryParse(raw);
      ghost var after := State();
      assert after == AfterParse(parse(raw), before);
      parsedOk := parsed.Some?;
      assert State() == after;
    }

    /** `setInput`: the new input, validated at once; the output is kept. */
    method SetInput(v: string)
      modifies this
      ensures input == v && output == old(output) && lastMode == old(lastMode) && copyMsg == old(copyMsg)
      ensures State() == AfterValidate(parse, v, old(State())) && Valid()
      ensures StatusType() == (if IsBlank(v) then StatusIdle
                               else if parse(v).Parsed? then StatusOk else StatusErr)
    {
      input := v;
      ghost var before := State();
      ValidateOnly(v);
      ghost var after := AfterValidate(parse, v, before);
      assert State() == after;
      assert after.parsedOk <==> !IsBlank(v) && parse(v).Parsed?;
    }

    /** `clearInput`. */
    method ClearInput()
      modifies this
      ensures input == "" && output == old(output) && lastMode == old(lastMode) && copyMsg == old(copyMsg)
      ensures State() == Cleared && StatusType() == StatusIdle && Valid()
    {
      input := "";
      ValidateOnly("");
      assert State() == Cleared;
    }

    /** `clearAll`: everything back to its initial value. */
    method ClearAll()
      modifies this
      ensures input == "" && output == "" && lastMode == None && copyMsg == ""
      ensures State() == Cleared && StatusType() == StatusIdle && Valid()
    {
      input := "";
      output := "";
      lastMode := None;
      copyMsg := "";
      ValidateOnly("");
      assert State() == Cleared;
    }

    /** `run(mode)`: parse the input; on failure empty the output, on success
        write the value in the requested layout. The input is not trimmed
        first, so blank input goes to the parser as it is. */
    method Run(mode: JsonMode)
      modifies this
      ensures copyMsg == "" && input == old(input)
      ensures State() == AfterParse(parse(input), old(State())) && Valid()
      ensures parse(input).Threw? ==> output == "" && lastMode == None
      ensures parse(input).Parsed? ==> lastMode == Some(mode)
      ensures parse(input).Parsed? ==>
        output == (if mode == Pretty then pretty(parse(input).value) else minified(parse(input).value))
    {
      var raw := input;
      copyMsg := "";
      var parsed := TryParse(raw);
      if parsed.None? {
        output := "";
        lastMode := None;
        return;
      }
      var value := parsed.value;
      if mode == Pretty {
        output := pretty(value);
        lastMode := Some(Pretty);
      } else {
        output := minified(value);
        lastMode := Some(Minify);
      }
    }
  }

  /** Validating the same input twice is the same as validating it once,
      except that a non-`Error` throw keeps whatever position was there. */
  lemma ValidateTwice(parse: Parser, raw: string, before: Validation)
    ensures var once := AfterValidate(parse, raw, before);
      AfterValidate(parse, raw, once) == once
  {
  }
}
