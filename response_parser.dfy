/**
 * The parser that turns the classification service's free-text reply into an
 * (agreement, strategy, explanation) triple (`parse_openai_response`).
 *
 * The reply is expected to look like
 *   Agreement: <Agree|Disagree>
 *   Strategy: <text>
 *   Explanation: <text>        (read only after "Disagree")
 * Each field is `line.split(": ")[1].strip()`: because the split has no maximum count, a field
 * is the text between the first and the second ": " of its line, not the whole remainder.
 * Every exception the Python code can raise on a string reply is an `IndexError` from a missing
 * line or a missing ": ", and all of them end in the sentinel triple.
 */
module ResponseParser {
  import opened Options
  import opened PyStr

  datatype Classification = Classification(agreement: string, strategy: string, explanation: string)

  /** The sentinel returned when parsing raises. */
  const ParseError := Classification("Error", "Error", "Error")

  const FieldSeparator := ": "
  const LineSeparator := "\n"

  /** `line.split(": ")[1].strip()`, or `None` where indexing the split raises `IndexError`. */
  function Field(line: string): Option<string>
  {
    var pieces := Split(line, FieldSeparator);
    if |pieces| < 2 then None else Some(Strip(pieces[1]))
  }

  /** The lines of a reply, as `response.split("\n")` gives them. */
  function Lines(response: string): (lines: seq<string>)
    ensures |lines| >= 1
  {
    Split(response, LineSeparator)
  }

  /** `parse_openai_response` on a string reply. */
  function ParseOpenAiResponse(response: string): Classification
  {
    var lines := Lines(response);
    var agreement := Field(lines[0]);
    if agreement.None? || |lines| < 2 then
      ParseError
    else
      var strategy := Field(lines[1]);
      if strategy.None? then
        ParseError
      else if agreement.value == "Disagree" && |lines| > 2 then
        match Field(lines[2])
        case None => ParseError
        case Some(explanation) => Classification(agreement.value, strategy.value, explanation)
      else
        Classification(agreement.value, strategy.value, "")
  }

  /** A line has a field exactly when it contains ": ". */
  lemma FieldPresent(line: string)
    ensures Field(line).Some? <==> Contains(line, FieldSeparator)
  {
  }

  /**
   * The field of `p + ": " + f + t` is `f` stripped whenever `p` and `f` hold no ": " and `t`
   * is empty or starts a further ": ": the field is the text between the first and the second
   * separator of the line.
   */
  lemma FieldBetween(p: string, f: string, t: string)
    requires !Contains(p, FieldSeparator) && !Contains(f, FieldSeparator)
    requires t == "" || (|t| >= 2 && t[..2] == FieldSeparator)
    ensures Field(p + FieldSeparator + f + t) == Some(Strip(f))
  {
    UnborderedSeparators();
    assert p + FieldSeparator + f + t == p + FieldSeparator + (f + t);
    SplitAfter(p, FieldSeparator, f + t);
    if t == "" {
      assert f + t == f;
      SplitWithout(f, FieldSeparator);
    } else {
      assert f + t == f + FieldSeparator + t[2..];
      SplitAfter(f, FieldSeparator, t[2..]);
    }
  }

  /**
   * The sentinel comes back when the reply has fewer than two lines, when line 0 or line 1 has
   * no ": ", or when the agreement is exactly "Disagree" and line 2 exists without a ": ".
   */
  lemma ParseErrorCases(response: string)
    ensures var lines := Lines(response);
            (|lines| < 2 ||
             !Contains(lines[0], FieldSeparator) ||
             !Contains(lines[1], FieldSeparator) ||
             (Field(lines[0]) == Some("Disagree") && |lines| > 2 && !Contains(lines[2], FieldSeparator)))
            ==> ParseOpenAiResponse(response) == ParseError
  {
  }

  /**
   * Outside the sentinel, the agreement and the strategy are the fields of lines 0 and 1, and
   * an explanation is read from line 2 only after exactly "Disagree"; otherwise it is empty,
   * even when a third line is present.
   */
  lemma ParseFields(response: string)
    ensures var lines := Lines(response);
            var r := ParseOpenAiResponse(response);
            |lines| >= 2 && Contains(lines[0], FieldSeparator) && Contains(lines[1], FieldSeparator) &&
            !(Field(lines[0]) == Some("Disagree") && |lines| > 2 && !Contains(lines[2], FieldSeparator))
            ==> Some(r.agreement) == Field(lines[0]) && Some(r.strategy) == Field(lines[1]) &&
                (if r.agreement == "Disagree" && |lines| > 2 then Some(r.explanation) == Field(lines[2])
                 else r.explanation == "")
  {
  }

  /** A reply laid out in the expected three-line shape, the inverse of the parser. */
  function Render(c: Classification): string
  {
    if c.agreement == "Disagree" then
      "Agreement: " + c.agreement + LineSeparator + "Strategy: " + c.strategy + LineSeparator + "Explanation: " + c.explanation
    else
      "Agreement: " + c.agreement + LineSeparator + "Strategy: " + c.strategy
  }

  /** A field value the parser can reproduce: one line, no ": ", no surrounding whitespace. */
  predicate PlainField(s: string)
  {
    '\n' !in s && !Contains(s, FieldSeparator) && Stripped(s)
  }

  /** A triple the parser can produce from a reply (other than through the sentinel). */
  predicate WellFormed(c: Classification)
  {
    PlainField(c.agreement) && PlainField(c.strategy) && PlainField(c.explanation) &&
    (c.agreement != "Disagree" ==> c.explanation == "")
  }

  /** The field of a single line, when it has one, is a plain field. */
  lemma FieldPlain(line: string)
    requires '\n' !in line
    ensures Field(line).Some? ==> PlainField(Field(line).value)
  {
    var pieces := Split(line, FieldSeparator);
    if |pieces| >= 2 {
      SplitPiecesFree(line, FieldSeparator);
      SplitPiecesWithin(line, FieldSeparator);
      StripWithin(pieces[1], FieldSeparator);
      assert '\n' !in pieces[1];
    }
  }

  /**
   * Every triple the parser returns other than the sentinel is well formed: together with
   * `ParseRender`, the well-formed triples are exactly the results of successful parses.
   */
  lemma ParseWellFormed(response: string)
    ensures ParseOpenAiResponse(response) != ParseError ==> WellFormed(ParseOpenAiResponse(response))
  {
    var lines := Lines(response);
    SplitPiecesFree(response, LineSeparator);
    forall k | 0 <= k < |lines| ensures '\n' !in lines[k] {
      ContainsChar(lines[k], LineSeparator);
    }
    FieldPlain(lines[0]);
    if |lines| > 1 {
      FieldPlain(lines[1]);
    }
    if |lines| > 2 {
      FieldPlain(lines[2]);
    }
    assert !Contains("", FieldSeparator);
  }

  /** `sep` cannot occur in a string that lacks its first character. */
  lemma AbsentFirstChar(s: string, sep: string)
    requires |sep| > 0 && sep[0] !in s
    ensures !Contains(s, sep)
  {
  }

  /** The parse of a reply whose lines and fields are known. */
  lemma ParseOfLines(response: string, lines: seq<string>, fields: seq<string>)
    requires Lines(response) == lines && 2 <= |lines| && |fields| == |lines|
    requires forall k :: 0 <= k < |lines| ==> Field(lines[k]) == Some(fields[k])
    ensures ParseOpenAiResponse(response) ==
            Classification(fields[0], fields[1], if fields[0] == "Disagree" && |lines| > 2 then fields[2] else "")
  {
  }

  /** `header + ": " + value` is one line whose field is `value`. */
  lemma RenderedLine(header: string, value: string)
    requires PlainField(value) && ':' !in header && '\n' !in header
    ensures !Contains(header + FieldSeparator + value, LineSeparator)
    ensures Field(header + FieldSeparator + value) == Some(value)
  {
    AbsentFirstChar(header, FieldSeparator);
    assert header + FieldSeparator + value + "" == header + FieldSeparator + value;
    FieldBetween(header, value, "");
    StripStripped(value);
    ContainsChar(header + FieldSeparator + value, LineSeparator);
  }

  /** `header + ": " + value + ": " + rest` is one line whose field is `value` alone. */
  lemma TruncatedLine(header: string, value: string, rest: string)
    requires PlainField(value) && ':' !in header && '\n' !in header && '\n' !in rest
    ensures !Contains(header + FieldSeparator + value + FieldSeparator + rest, LineSeparator)
    ensures Field(header + FieldSeparator + value + FieldSeparator + rest) == Some(value)
  {
    AbsentFirstChar(header, FieldSeparator);
    assert header + FieldSeparator + value + FieldSeparator + rest
        == header + FieldSeparator + value + (FieldSeparator + rest);
    FieldBetween(header, value, FieldSeparator + rest);
    StripStripped(value);
    ContainsChar(header + FieldSeparator + value + FieldSeparator + rest, LineSeparator);
  }

  lemma TwoLines(l0: string, l1: string)
    requires !Contains(l0, LineSeparator) && !Contains(l1, LineSeparator)
    ensures Lines(l0 + LineSeparator + l1) == [l0, l1]
  {
    UnborderedSeparators();
    SplitAfter(l0, LineSeparator, l1);
    SplitWithout(l1, LineSeparator);
  }

  lemma ThreeLines(l0: string, l1: string, l2: string)
    requires !Contains(l0, LineSeparator) && !Contains(l1, LineSeparator) && !Contains(l2, LineSeparator)
    ensures Lines(l0 + LineSeparator + l1 + LineSeparator + l2) == [l0, l1, l2]
  {
    UnborderedSeparators();
    TwoLines(l1, l2);
    assert l0 + LineSeparator + l1 + LineSeparator + l2 == l0 + LineSeparator + (l1 + LineSeparator + l2);
    SplitAfter(l0, LineSeparator, l1 + LineSeparator + l2);
  }

  /** A two-line reply never has an explanation, even after "Disagree". */
  lemma ParseTwoLines(l0: string, l1: string, agreement: string, strategy: string)
    requires !Contains(l0, LineSeparator) && !Contains(l1, LineSeparator)
    requires Field(l0) == Some(agreement) && Field(l1) == Some(strategy)
    ensures ParseOpenAiResponse(l0 + LineSeparator + l1) == Classification(agreement, strategy, "")
  {
    TwoLines(l0, l1);
    ParseOfLines(l0 + LineSeparator + l1, [l0, l1], [agreement, strategy]);
  }

  /** A third line is read only after exactly "Disagree"; otherwise it is ignored. */
  lemma ParseThreeLines(l0: string, l1: string, l2: string, agreement: string, strategy: string, explanation: string)
    requires !Contains(l0, LineSeparator) && !Contains(l1, LineSeparator) && !Contains(l2, LineSeparator)
    requires Field(l0) == Some(agreement) && Field(l1) == Some(strategy) && Field(l2) == Some(explanation)
    ensures ParseOpenAiResponse(l0 + LineSeparator + l1 + LineSeparator + l2)
            == Classification(agreement, strategy, if agreement == "Disagree" then explanation else "")
  {
    ThreeLines(l0, l1, l2);
    ParseOfLines(l0 + LineSeparator + l1 + LineSeparator + l2, [l0, l1, l2], [agreement, strategy, explanation]);
  }

  /** Parsing a rendered well-formed triple gives the triple back. */
  lemma ParseRender(c: Classification)
    requires WellFormed(c)
    ensures ParseOpenAiResponse(Render(c)) == c
  {
    if c.agreement == "Disagree" {
      ParseRenderDisagree(c.agreement, c.strategy, c.explanation);
    } else {
      ParseRenderOther(c.agreement, c.strategy);
    }
  }

  lemma ParseRenderOther(agreement: string, strategy: string)
    requires PlainField(agreement) && PlainField(strategy)
    ensures ParseOpenAiResponse("Agreement: " + agreement + LineSeparator + "Strategy: " + strategy)
            == Classification(agreement, strategy, "")
  {
    var l0 := "Agreement" + FieldSeparator + agreement;
    var l1 := "Strategy" + FieldSeparator + strategy;
    assert "Agreement: " == "Agreement" + FieldSeparator;
    assert "Strategy: " == "Strategy" + FieldSeparator;
    assert "Agreement: " + agreement + LineSeparator + "Strategy: " + strategy == l0 + LineSeparator + l1;
    RenderedLine("Agreement", agreement);
    RenderedLine("Strategy", strategy);
    ParseTwoLines(l0, l1, agreement, strategy);
  }

  lemma ParseRenderDisagree(agreement: string, strategy: string, explanation: string)
    requires PlainField(agreement) && PlainField(strategy) && PlainField(explanation)
    ensures ParseOpenAiResponse("Agreement: " + agreement + LineSeparator + "Strategy: " + strategy +
                                LineSeparator + "Explanation: " + explanation)
            == Classification(agreement, strategy, if agreement == "Disagree" then explanation else "")
  {
    var l0 := "Agreement" + FieldSeparator + agreement;
    var l1 := "Strategy" + FieldSeparator + strategy;
    var l2 := "Explanation" + FieldSeparator + explanation;
    assert "Agreement: " == "Agreement" + FieldSeparator;
    assert "Strategy: " == "Strategy" + FieldSeparator;
    assert "Explanation: " == "Explanation" + FieldSeparator;
    assert "Agreement: " + agreement + LineSeparator + "Strategy: " + strategy + LineSeparator + "Explanation: " + explanation
        == l0 + LineSeparator + l1 + LineSeparator + l2;
    RenderedLine("Agreement", agreement);
    RenderedLine("Strategy", strategy);
    RenderedLine("Explanation", explanation);
    ParseThreeLines(l0, l1, l2, agreement, strategy, explanation);
  }

  /**
   * A strategy line "Strategy: <code>: <name>" yields the code alone, not "<code>: <name>",
   * because the split has no maximum count.
   */
  lemma ParseTruncatesStrategy(agreement: string, code: string, name: string)
    requires PlainField(agreement) && PlainField(code) && '\n' !in name
    ensures ParseOpenAiResponse("Agreement: " + agreement + LineSeparator + "Strategy: " + code + FieldSeparator + name)
            == Classification(agreement, code, "")
  {
    var l0 := "Agreement" + FieldSeparator + agreement;
    var l1 := "Strategy" + FieldSeparator + code + FieldSeparator + name;
    assert "Agreement: " == "Agreement" + FieldSeparator;
    assert "Strategy: " == "Strategy" + FieldSeparator;
    assert "Agreement: " + agreement + LineSeparator + "Strategy: " + code + FieldSeparator + name
        == l0 + LineSeparator + l1;
    RenderedLine("Agreement", agreement);
    TruncatedLine("Strategy", code, name);
    ParseTwoLines(l0, l1, agreement, code);
  }

  /**
   * With three lines, the third line's field is the explanation exactly after "Disagree"; the
   * strategy is still the code alone.
   */
  lemma ParseDisagreeExplanation(agreement: string, code: string, name: string, explanation: string)
    requires PlainField(agreement) && PlainField(code) && '\n' !in name && PlainField(explanation)
    ensures ParseOpenAiResponse("Agreement: " + agreement + LineSeparator + "Strategy: " + code + FieldSeparator + name +
                                LineSeparator + "Explanation: " + explanation)
            == Classification(agreement, code, if agreement == "Disagree" then explanation else "")
  {
    var l0 := "Agreement: " + agreement;
    var l1 := "Strategy: " + code + FieldSeparator + name;
    var l2 := "Explanation: " + explanation;
    assert "Agreement: " == "Agreement" + FieldSeparator;
    assert "Strategy: " == "Strategy" + FieldSeparator;
    assert "Explanation: " == "Explanation" + FieldSeparator;
    Regroup("Agreement: ", agreement, LineSeparator, "Strategy: ", code, FieldSeparator, name, "Explanation: ", explanation);
    RenderedLine("Agreement", agreement);
    TruncatedLine("Strategy", code, name);
    RenderedLine("Explanation", explanation);
    ParseThreeLines(l0, l1, l2, agreement, code, explanation);
  }

  /** Regrouping a three-line reply into its lines. */
  lemma Regroup(a0: string, a1: string, nl: string, b0: string, b1: string, b2: string, b3: string, c0: string, c1: string)
    ensures a0 + a1 + nl + b0 + b1 + b2 + b3 + nl + c0 + c1 == (a0 + a1) + nl + (b0 + b1 + b2 + b3) + nl + (c0 + c1)
  {
    assert a0 + a1 + nl + b0 + b1 + b2 + b3 == (a0 + a1) + nl + (b0 + b1 + b2 + b3);
  }

  lemma ParseExampleAgree()
    ensures ParseOpenAiResponse("Agreement: " + "Agree" + LineSeparator + "Strategy: " + "R2" + FieldSeparator + "Reuse")
            == Classification("Agree", "R2", "")
  {
    AbsentFirstChar("Agree", FieldSeparator);
    AbsentFirstChar("R2", FieldSeparator);
    ParseTruncatesStrategy("Agree", "R2", "Reuse");
  }

  lemma ParseExampleDisagree()
    ensures ParseOpenAiResponse("Agreement: " + "Disagree" + LineSeparator + "Strategy: " + "R3" + FieldSeparator + "Recycle" +
                                LineSeparator + "Explanation: " + "wrong category")
            == Classification("Disagree", "R3", "wrong category")
  {
    AbsentFirstChar("Disagree", FieldSeparator);
    AbsentFirstChar("R3", FieldSeparator);
    AbsentFirstChar("wrong category", FieldSeparator);
    ParseDisagreeExplanation("Disagree", "R3", "Recycle", "wrong category");
  }

  /** A one-line reply is the sentinel. */
  lemma ParseExampleGarbage()
    ensures ParseOpenAiResponse("garbage") == ParseError
  {
    ContainsChar("garbage", LineSeparator);
    SplitWithout("garbage", LineSeparator);
  }
}
