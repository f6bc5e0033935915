/** The reply-suggestion parser of `ResponseGenerator` (`_parse_response_suggestions`):
    a line scanner over the model's text. A line starting with "Response" closes the
    open record and opens a new one holding the line's value as `text`; a line
    starting with "Explanation" sets `explanation` on the open record; every other
    line is ignored; the open record is closed at the end. A marker line without a
    colon raises `IndexError`. */
module ResponseParser {
  import opened Wrappers
  import opened Text

  /** A suggestion dict: its `text` and `explanation` keys, each possibly absent. */
  datatype Suggestion = Suggestion(text: Option<string>, explanation: Option<string>) {
    /** The empty dict, which `if current_response` finds false. */
    predicate IsEmpty() {
      text.None? && explanation.None?
    }
  }

  /** The parse: the suggestions, or the `IndexError` a marker line without a colon raises. */
  datatype ParseOutcome = Parsed(suggestions: seq<Suggestion>) | IndexError

  /** The scanner between two lines: the records closed so far and the open one. */
  datatype ScanState = ScanState(responses: seq<Suggestion>, current: Suggestion)

  const Initial := ScanState([], Suggestion(None, None))

  predicate IsResponseLine(line: string) {
    StartsWith(line, "Response")
  }

  predicate IsExplanationLine(line: string) {
    StartsWith(line, "Explanation")
  }

  predicate IsMarker(line: string) {
    IsResponseLine(line) || IsExplanationLine(line)
  }

  /** A marker line `split(':', 1)[1]` fails on. */
  predicate IsBroken(line: string) {
    IsMarker(line) && ':' !in line
  }

  /** The value a marker line carries: what follows its first colon, stripped. */
  function FieldOf(line: string): string
    requires ':' in line
  {
    Trim(AfterFirstColon(line).value)
  }

  /** `if current_response: responses.append(current_response)`. */
  function Close(responses: seq<Suggestion>, current: Suggestion): seq<Suggestion> {
    if current.IsEmpty() then responses else responses + [current]
  }

  /** One iteration of the scanner's loop; `None` where the line raises. */
  function Step(st: ScanState, line: string): Option<ScanState> {
    if IsResponseLine(line) then
      if ':' in line then Some(ScanState(Close(st.responses, st.current), Suggestion(Some(FieldOf(line)), None)))
      else None
    else if IsExplanationLine(line) then
      if ':' in line then Some(st.(current := st.current.(explanation := Some(FieldOf(line)))))
      else None
    else Some(st)
  }

  lemma ScanOneMore(lines: seq<string>, i: nat)
    requires i < |lines|
    ensures Scan(lines[..i + 1]) == match Scan(lines[..i]) case None => None case Some(st) => Step(st, lines[i])
  {
    assert lines[..i + 1][..i] == lines[..i];
  }

  /** The scanner's state after the lines of `lines`. Its invariants: while the
      open record is empty nothing has been closed, no closed record is empty, and
      every record, closed or open, was opened by a line of its own. */
  function Scan(lines: seq<string>): (r: Option<ScanState>)
    ensures r.Some? ==> r.value.current.IsEmpty() ==> r.value.responses == []
    ensures r.Some? ==> forall k | 0 <= k < |r.value.responses| :: !r.value.responses[k].IsEmpty()
    ensures r.Some? ==> |r.value.responses| + (if r.value.current.IsEmpty() then 0 else 1) <= |lines|
  {
    if lines == [] then Some(Initial)
    else
      match Scan(lines[..|lines| - 1])
      case None => None
      case Some(st) => Step(st, lines[|lines| - 1])
  }

  /** What `_parse_response_suggestions` makes of these lines. */
  function ParseLines(lines: seq<string>): (r: ParseOutcome)
    ensures r.Parsed? ==> |r.suggestions| <= |lines|
    ensures r.Parsed? ==> forall k | 0 <= k < |r.suggestions| :: !r.suggestions[k].IsEmpty()
  {
    match Scan(lines)
    case None => IndexError
    case Some(st) => Parsed(Close(st.responses, st.current))
  }

  /** What `_parse_response_suggestions` makes of the model's text. */
  function ParseResponseText(llmOutput: string): (r: ParseOutcome)
    ensures r.Parsed? ==> |r.suggestions| <= |Split(llmOutput, '\n')|
    ensures r.Parsed? ==> forall k | 0 <= k < |r.suggestions| :: !r.suggestions[k].IsEmpty()
  {
    ParseLines(Split(llmOutput, '\n'))
  }

  /** `_parse_response_suggestions`: the loop over the lines of the model's text. */
  method ParseResponseSuggestions(llmOutput: string) returns (r: ParseOutcome)
    ensures r == ParseResponseText(llmOutput)
  {
    var lines := Split(llmOutput, '\n');
    var responses: seq<Suggestion> := [];
    var current := Suggestion(None, None);
    for i := 0 to |lines|
      invariant Scan(lines[..i]) == Some(ScanState(responses, current))
    {
      var line := lines[i];
      ScanOneMore(lines, i);
      ghost var before := ScanState(responses, current);
      if StartsWith(line, "Response") {
        if !current.IsEmpty() {
          responses := responses + [current];
        }
        match AfterFirstColon(line)
        case None =>
          ErrorPersists(lines, i + 1);
          return IndexError;
        case Some(v) =>
          current := Suggestion(Some(Trim(v)), None);
          assert Step(before, line) == Some(ScanState(responses, current));
      } else if StartsWith(line, "Explanation") {
        match AfterFirstColon(line)
        case None =>
          ErrorPersists(lines, i + 1);
          return IndexError;
        case Some(v) =>
          current := current.(explanation := Some(Trim(v)));
          assert Step(before, line) == Some(ScanState(responses, current));
      } else {
        assert Step(before, line) == Some(before);
      }
    }
    if !current.IsEmpty() {
      responses := responses + [current];
    }
    assert lines[..|lines|] == lines;
    r := Parsed(responses);
  }

  // ---------------------------------------------------------------------------
  // The parse, line by line, in terms of the records alone

  /** Sets the explanation of the last record, or makes a record holding only an
      explanation when there is none yet. */
  function SetLastExplanation(rs: seq<Suggestion>, e: string): (r: seq<Suggestion>)
    ensures |r| == if rs == [] then 1 else |rs|
  {
    if rs == [] then [Suggestion(None, Some(e))]
    else rs[..|rs| - 1] + [rs[|rs| - 1].(explanation := Some(e))]
  }

  /** How one more line changes the parse of the lines before it. */
  function Extend(p: ParseOutcome, line: string): ParseOutcome {
    match p
    case IndexError => IndexError
    case Parsed(rs) =>
      if IsBroken(line) then IndexError
      else if IsResponseLine(line) then Parsed(rs + [Suggestion(Some(FieldOf(line)), None)])
      else if IsExplanationLine(line) then Parsed(SetLastExplanation(rs, FieldOf(line)))
      else p
  }

  /** The parse of `lines + [line]` is the parse of `lines` extended by `line`:
      a Response line appends a record with its text and no explanation, an
      Explanation line sets the last record's explanation (creating a record with
      no text if there is none), a marker line without a colon raises, and any
      other line changes nothing. */
  lemma ParseExtend(lines: seq<string>, line: string)
    ensures ParseLines(lines + [line]) == Extend(ParseLines(lines), line)
  {
    var all := lines + [line];
    assert all[..|all| - 1] == lines;
    if Scan(lines).Some? {
      var st := Scan(lines).value;
      if IsExplanationLine(line) && ':' in line && !IsResponseLine(line) {
        CloseThenExplain(st.responses, st.current, FieldOf(line));
      }
    }
  }

  /** Setting the explanation on the open record, then closing it, is closing it and
      then setting the last record's explanation. */
  lemma CloseThenExplain(responses: seq<Suggestion>, current: Suggestion, e: string)
    requires current.IsEmpty() ==> responses == []
    ensures Close(responses, current.(explanation := Some(e))) == SetLastExplanation(Close(responses, current), e)
  {
    if !current.IsEmpty() {
      var closed := responses + [current];
      assert closed[..|closed| - 1] == responses;
    }
  }

  /** Once a line raises, so does every longer input. */
  lemma {:induction false} ErrorPersists(lines: seq<string>, n: nat)
    requires n <= |lines|
    requires ParseLines(lines[..n]).IndexError?
    ensures ParseLines(lines).IndexError?
    decreases |lines| - n
  {
    if n < |lines| {
      ParseExtend(lines[..n], lines[n]);
      assert lines[..n] + [lines[n]] == lines[..n + 1];
      ErrorPersists(lines, n + 1);
    } else {
      assert lines[..n] == lines;
    }
  }

  /** Parsing raises exactly when some marker line holds no colon. */
  lemma {:induction false} RaisesIffBroken(lines: seq<string>)
    ensures ParseLines(lines).IndexError? <==> exists i | 0 <= i < |lines| :: IsBroken(lines[i])
  {
    if lines != [] {
      var a, x := lines[..|lines| - 1], lines[|lines| - 1];
      assert a + [x] == lines;
      ParseExtend(a, x);
      RaisesIffBroken(a);
      if exists i | 0 <= i < |a| :: IsBroken(a[i]) {
        var i :| 0 <= i < |a| && IsBroken(a[i]);
        assert lines[i] == a[i];
      }
      if exists i | 0 <= i < |lines| :: IsBroken(lines[i]) {
        var i :| 0 <= i < |lines| && IsBroken(lines[i]);
        if i < |a| {
          assert a[i] == lines[i];
        }
      }
    }
  }

  /** No line starts with both markers. */
  lemma MarkersExclusive(line: string)
    ensures !(IsResponseLine(line) && IsExplanationLine(line))
  {
    if IsResponseLine(line) {
      assert line[0] == line[..8][0] == 'R';
      if |line| >= 11 {
        assert line[..11][0] == line[0];
      }
    }
  }

  /** A marker line begins with a capital 'R' or 'E': a line in lower case, or one
      with leading whitespace, is not a marker. */
  lemma MarkersStartCapitalised(line: string)
    requires IsMarker(line)
    ensures |line| > 0 && (line[0] == 'R' || line[0] == 'E')
  {
    if IsResponseLine(line) {
      assert line[0] == line[..8][0];
    } else {
      assert line[0] == line[..11][0];
    }
  }

  // ---------------------------------------------------------------------------
  // How many records, and which texts

  /** The number of lines starting with "Response". */
  function CountResponses(lines: seq<string>): nat {
    if lines == [] then 0
    else CountResponses(lines[..|lines| - 1]) + (if IsResponseLine(lines[|lines| - 1]) then 1 else 0)
  }

  /** The stripped values of the Response lines, in order. */
  function ResponseFields(lines: seq<string>): seq<string> {
    if lines == [] then []
    else
      var last := lines[|lines| - 1];
      ResponseFields(lines[..|lines| - 1]) + (if IsResponseLine(last) && ':' in last then [FieldOf(last)] else [])
  }

  predicate NoResponseBefore(lines: seq<string>, n: nat)
    requires n <= |lines|
  {
    forall j | 0 <= j < n :: !IsResponseLine(lines[j])
  }

  /** Some Explanation line comes before the first Response line. */
  predicate OrphanExplanation(lines: seq<string>) {
    exists i | 0 <= i < |lines| :: IsExplanationLine(lines[i]) && NoResponseBefore(lines, i)
  }

  lemma {:induction false} CountZeroIffNoResponse(lines: seq<string>)
    ensures CountResponses(lines) == 0 <==> NoResponseBefore(lines, |lines|)
  {
    if lines != [] {
      var a := lines[..|lines| - 1];
      CountZeroIffNoResponse(a);
      if NoResponseBefore(lines, |lines|) {
        assert forall j | 0 <= j < |a| :: a[j] == lines[j];
      }
      if NoResponseBefore(a, |a|) && !IsResponseLine(lines[|lines| - 1]) {
        forall j | 0 <= j < |lines| ensures !IsResponseLine(lines[j]) {
          if j < |a| { assert lines[j] == a[j]; }
        }
      }
    }
  }

  lemma OrphanExtend(lines: seq<string>, line: string)
    ensures OrphanExplanation(lines + [line]) <==>
      OrphanExplanation(lines) || (IsExplanationLine(line) && CountResponses(lines) == 0)
  {
    var all := lines + [line];
    assert forall j | 0 <= j < |lines| :: all[j] == lines[j];
    CountZeroIffNoResponse(lines);
    if OrphanExplanation(lines) {
      var i :| 0 <= i < |lines| && IsExplanationLine(lines[i]) && NoResponseBefore(lines, i);
      assert all[i] == lines[i];
      assert NoResponseBefore(all, i);
    }
    if IsExplanationLine(line) && CountResponses(lines) == 0 {
      assert all[|lines|] == line;
      assert NoResponseBefore(all, |lines|);
    }
    if OrphanExplanation(all) {
      var i :| 0 <= i < |all| && IsExplanationLine(all[i]) && NoResponseBefore(all, i);
      if i < |lines| {
        assert lines[i] == all[i];
        assert NoResponseBefore(lines, i);
      } else {
        assert NoResponseBefore(lines, |lines|);
      }
    }
  }

  /** The shape of the records `rs` parsed from `lines`: one record per Response
      line, carrying that line's value as its text and in the same order, preceded
      by one more record, with an explanation and no text, exactly when an
      Explanation line comes before the first Response line; no record is empty. */
  ghost predicate Shaped(lines: seq<string>, rs: seq<Suggestion>) {
    var off := if OrphanExplanation(lines) then 1 else 0;
    && |ResponseFields(lines)| == CountResponses(lines)
    && |rs| == off + CountResponses(lines)
    && (forall k | 0 <= k < CountResponses(lines) :: rs[off + k].text == Some(ResponseFields(lines)[k]))
    && (OrphanExplanation(lines) ==> rs[0].text.None? && rs[0].explanation.Some?)
    && (forall k | 0 <= k < |rs| :: !rs[k].IsEmpty())
  }

  /** Every successful parse has that shape. */
  lemma {:induction false} ParsedShape(lines: seq<string>)
    requires ParseLines(lines).Parsed?
    ensures Shaped(lines, ParseLines(lines).suggestions)
  {
    if lines == [] {
      return;
    }
    var a, x := lines[..|lines| - 1], lines[|lines| - 1];
    assert a + [x] == lines;
    ParseExtend(a, x);
    assert ParseLines(a).Parsed?;
    ParsedShape(a);
    var ra := ParseLines(a).suggestions;
    if IsResponseLine(x) {
      ShapeAfterResponse(a, x, ra);
    } else if IsExplanationLine(x) {
      ShapeAfterExplanation(a, x, ra);
    } else {
      ShapeAfterOther(a, x, ra);
    }
  }

  lemma LineCounts(a: seq<string>, x: string)
    ensures CountResponses(a + [x]) == CountResponses(a) + (if IsResponseLine(x) then 1 else 0)
    ensures ResponseFields(a + [x]) == ResponseFields(a) + (if IsResponseLine(x) && ':' in x then [FieldOf(x)] else [])
  {
    assert (a + [x])[..|a|] == a;
  }

  lemma ShapeAfterResponse(a: seq<string>, x: string, ra: seq<Suggestion>)
    requires Shaped(a, ra) && IsResponseLine(x) && ':' in x
    ensures Shaped(a + [x], ra + [Suggestion(Some(FieldOf(x)), None)])
  {
    MarkersExclusive(x);
    OrphanExtend(a, x);
    LineCounts(a, x);
  }

  lemma ShapeAfterExplanation(a: seq<string>, x: string, ra: seq<Suggestion>)
    requires Shaped(a, ra) && IsExplanationLine(x) && ':' in x
    ensures Shaped(a + [x], SetLastExplanation(ra, FieldOf(x)))
  {
    MarkersExclusive(x);
    OrphanExtend(a, x);
    LineCounts(a, x);
    if ra == [] {
      assert CountResponses(a) == 0;
    } else {
      var rb := SetLastExplanation(ra, FieldOf(x));
      SetLastExplanationKeepsTexts(ra, FieldOf(x));
      ShapeKeepsTexts(a, a + [x], ra, rb);
    }
  }

  /** On records that exist, setting the last explanation keeps every text and leaves
      no record empty that was not. */
  lemma SetLastExplanationKeepsTexts(rs: seq<Suggestion>, e: string)
    requires rs != []
    ensures var r := SetLastExplanation(rs, e);
      |r| == |rs| && forall k | 0 <= k < |r| ::
        r[k].text == rs[k].text && (!rs[k].IsEmpty() ==> !r[k].IsEmpty())
  {
  }

  /** Records with the same texts, none empty, fit lines with the same Response lines
      and the same orphan status. */
  lemma ShapeKeepsTexts(a: seq<string>, b: seq<string>, ra: seq<Suggestion>, rb: seq<Suggestion>)
    requires Shaped(a, ra)
    requires CountResponses(b) == CountResponses(a) && ResponseFields(b) == ResponseFields(a)
    requires OrphanExplanation(b) == OrphanExplanation(a)
    requires |rb| == |ra|
    requires forall k | 0 <= k < |rb| :: rb[k].text == ra[k].text && (!ra[k].IsEmpty() ==> !rb[k].IsEmpty())
    ensures Shaped(b, rb)
  {
  }

  lemma ShapeAfterOther(a: seq<string>, x: string, ra: seq<Suggestion>)
    requires Shaped(a, ra) && !IsMarker(x)
    ensures Shaped(a + [x], ra)
  {
    OrphanExtend(a, x);
    LineCounts(a, x);
  }

  /** The number of records is the number of Response lines, plus one when an
      Explanation line comes before the first Response line. */
  lemma SuggestionCount(lines: seq<string>)
    requires ParseLines(lines).Parsed?
    ensures |ParseLines(lines).suggestions| == CountResponses(lines) + (if OrphanExplanation(lines) then 1 else 0)
  {
    ParsedShape(lines);
  }

  // ---------------------------------------------------------------------------
  // Lines that are not markers, and repeated explanations

  /** Inserting a line that starts with neither marker never changes the parse. */
  lemma {:induction false} IgnoredLineInsertion(a: seq<string>, x: string, b: seq<string>)
    requires !IsMarker(x)
    ensures ParseLines(a + [x] + b) == ParseLines(a + b)
  {
    if b == [] {
      assert a + [x] + b == a + [x];
      assert a + b == a;
      ParseExtend(a, x);
    } else {
      var b', y := b[..|b| - 1], b[|b| - 1];
      assert a + [x] + b == (a + [x] + b') + [y];
      assert a + b == (a + b') + [y];
      IgnoredLineInsertion(a, x, b');
      ParseExtend(a + [x] + b', y);
      ParseExtend(a + b', y);
    }
  }

  /** The marker lines of `lines`, in order. */
  function MarkerLines(lines: seq<string>): seq<string> {
    if lines == [] then []
    else
      MarkerLines(lines[..|lines| - 1])
      + (if IsMarker(lines[|lines| - 1]) then [lines[|lines| - 1]] else [])
  }

  /** Only the marker lines matter: dropping all others gives the same parse. */
  lemma {:induction false} OnlyMarkerLinesMatter(lines: seq<string>)
    ensures ParseLines(lines) == ParseLines(MarkerLines(lines))
  {
    if lines != [] {
      var a, x := lines[..|lines| - 1], lines[|lines| - 1];
      assert a + [x] == lines;
      OnlyMarkerLinesMatter(a);
      ParseExtend(a, x);
      assert MarkerLines(lines) == MarkerLines(a) + (if IsMarker(x) then [x] else []);
      if IsMarker(x) {
        ParseExtend(MarkerLines(a), x);
        assert ParseLines(MarkerLines(lines)) == Extend(ParseLines(MarkerLines(a)), x);
      } else {
        assert MarkerLines(lines) == MarkerLines(a);
      }
    }
  }

  /** Of two Explanation lines in a row, the second wins. */
  lemma LastExplanationWins(lines: seq<string>, e1: string, e2: string)
    requires IsExplanationLine(e1) && ':' in e1
    requires IsExplanationLine(e2) && ':' in e2
    ensures ParseLines(lines + [e1, e2]) == ParseLines(lines + [e2])
  {
    ParseExtend(lines, e1);
    ParseExtend(lines + [e1], e2);
    ParseExtend(lines, e2);
    assert lines + [e1] + [e2] == lines + [e1, e2];
    MarkersExclusive(e1);
    MarkersExclusive(e2);
  }

  // ---------------------------------------------------------------------------
  // Well-formed model output

  /** The lines `Response<label>:<text>` / `Explanation:<explanation>`, pair after pair. */
  function PairedLines(labels: seq<string>, texts: seq<string>, explanations: seq<string>): (r: seq<string>)
    requires |labels| == |texts| == |explanations|
    ensures |r| == 2 * |labels|
  {
    if labels == [] then []
    else
      var n := |labels| - 1;
      PairedLines(labels[..n], texts[..n], explanations[..n])
      + ["Response" + labels[n] + ":" + texts[n], "Explanation:" + explanations[n]]
  }

  /** A line `Response<tag>:<text>` appends a record holding the stripped text. */
  lemma ResponseStep(prefix: seq<string>, rs: seq<Suggestion>, tag: string, text: string)
    requires ParseLines(prefix) == Parsed(rs)
    requires ':' !in tag
    ensures ParseLines(prefix + ["Response" + tag + ":" + text]) == Parsed(rs + [Suggestion(Some(Trim(text)), None)])
  {
    var line := "Response" + tag + ":" + text;
    assert line == ("Response" + tag) + ":" + text;
    assert line[..8] == "Response";
    AfterFirstColonKeepsLaterColons("Response" + tag, text);
    ParseExtend(prefix, line);
  }

  /** A line `Explanation:<explanation>` sets the stripped explanation on the last record. */
  lemma ExplanationStep(prefix: seq<string>, rs: seq<Suggestion>, last: Suggestion, explanation: string)
    requires ParseLines(prefix) == Parsed(rs + [last])
    ensures ParseLines(prefix + ["Explanation:" + explanation])
      == Parsed(rs + [last.(explanation := Some(Trim(explanation)))])
  {
    var line := "Explanation:" + explanation;
    assert line == "Explanation" + ":" + explanation;
    assert line[..11] == "Explanation";
    AfterFirstColonKeepsLaterColons("Explanation", explanation);
    MarkersExclusive(line);
    ParseExtend(prefix, line);
    assert (rs + [last])[..|rs|] == rs;
  }

  /** One more Response/Explanation pair appends one full record. */
  lemma PairStep(prefix: seq<string>, rs: seq<Suggestion>, tag: string, text: string, explanation: string)
    requires ParseLines(prefix) == Parsed(rs)
    requires ':' !in tag
    ensures ParseLines(prefix + ["Response" + tag + ":" + text, "Explanation:" + explanation])
      == Parsed(rs + [Suggestion(Some(Trim(text)), Some(Trim(explanation)))])
  {
    var r := "Response" + tag + ":" + text;
    ResponseStep(prefix, rs, tag, text);
    ExplanationStep(prefix + [r], rs, Suggestion(Some(Trim(text)), None), explanation);
    assert prefix + [r] + ["Explanation:" + explanation] == prefix + [r, "Explanation:" + explanation];
  }

  /** The records N well-formed pairs should give. */
  function PairedRecords(texts: seq<string>, explanations: seq<string>): (r: seq<Suggestion>)
    requires |texts| == |explanations|
    ensures |r| == |texts|
    ensures forall k | 0 <= k < |r| :: r[k] == Suggestion(Some(Trim(texts[k])), Some(Trim(explanations[k])))
  {
    seq(|texts|, k requires 0 <= k < |texts| => Suggestion(Some(Trim(texts[k])), Some(Trim(explanations[k]))))
  }

  /** N Response lines, each followed by an Explanation line, give exactly N
      records in order, each with the stripped text and explanation; colons after
      the first stay in the values. */
  lemma {:induction false} PairedLinesParse(labels: seq<string>, texts: seq<string>, explanations: seq<string>)
    requires |labels| == |texts| == |explanations|
    requires forall k | 0 <= k < |labels| :: ':' !in labels[k]
    ensures ParseLines(PairedLines(labels, texts, explanations)) == Parsed(PairedRecords(texts, explanations))
  {
    if labels != [] {
      var n := |labels| - 1;
      PairedLinesParse(labels[..n], texts[..n], explanations[..n]);
      PairStep(PairedLines(labels[..n], texts[..n], explanations[..n]),
               PairedRecords(texts[..n], explanations[..n]), labels[n], texts[n], explanations[n]);
      PairedRecordsSnoc(texts, explanations);
    }
  }

  lemma PairedRecordsSnoc(texts: seq<string>, explanations: seq<string>)
    requires |texts| == |explanations| > 0
    ensures var n := |texts| - 1;
      PairedRecords(texts[..n], explanations[..n]) + [Suggestion(Some(Trim(texts[n])), Some(Trim(explanations[n])))]
        == PairedRecords(texts, explanations)
  {
  }

  /** The same, for the model's text: pairs joined by newlines. */
  lemma WellFormedOutputParses(labels: seq<string>, texts: seq<string>, explanations: seq<string>)
    requires |labels| == |texts| == |explanations|
    requires forall k | 0 <= k < |labels| :: ':' !in labels[k] && '\n' !in labels[k]
    requires forall k | 0 <= k < |labels| :: '\n' !in texts[k] && '\n' !in explanations[k]
    ensures ParseResponseText(Join(PairedLines(labels, texts, explanations), '\n'))
      == Parsed(PairedRecords(texts, explanations))
  {
    var lines := PairedLines(labels, texts, explanations);
    PairedLinesParse(labels, texts, explanations);
    if labels == [] {
      assert Split([], '\n') == [[]];
      assert ParseLines([[]]) == Extend(ParseLines([]), []) by {
        ParseExtend([], []);
      }
    } else {
      PairedLinesNewlineFree(labels, texts, explanations);
      SplitJoin(lines, '\n');
    }
  }

  lemma {:induction false} PairedLinesNewlineFree(labels: seq<string>, texts: seq<string>, explanations: seq<string>)
    requires |labels| == |texts| == |explanations|
    requires forall k | 0 <= k < |labels| :: '\n' !in labels[k]
    requires forall k | 0 <= k < |labels| :: '\n' !in texts[k] && '\n' !in explanations[k]
    ensures forall i | 0 <= i < |PairedLines(labels, texts, explanations)| ::
      '\n' !in PairedLines(labels, texts, explanations)[i]
  {
    if labels != [] {
      var n := |labels| - 1;
      PairedLinesNewlineFree(labels[..n], texts[..n], explanations[..n]);
    }
  }

  /** A Response line with nothing after it gives a record with text and no explanation. */
  lemma ResponseWithoutExplanation(lines: seq<string>, r: string)
    requires ParseLines(lines).Parsed?
    requires IsResponseLine(r) && ':' in r
    ensures ParseLines(lines + [r]).Parsed?
    ensures var rs := ParseLines(lines + [r]).suggestions;
      rs[|rs| - 1] == Suggestion(Some(FieldOf(r)), None)
  {
    ParseExtend(lines, r);
  }
}
