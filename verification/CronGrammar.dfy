/** Exactly which expressions are accepted: the grammar of one, and what each form of it names. */
module CronGrammar {
  import opened Wrappers
  import opened Text
  import opened Schedule
  import opened ScheduleText
  import Calendar

  // The grammar

  /** The text of a value, whatever spaces are around it: a number, with leading zeros or without,
      or a name of the field's. */
  predicate ReadsToken(text: string, t: Token, field: Field) {
    var token := Strip(text);
    && ValidToken(t, field)
    && match t
       case Number(n) => token != [] && AllDigits(token) && ToNat(token) == n
       case Name(n) => token == if field == Month then MONTH_NAMES[n - 1] else WEEKDAY_NAMES[n]
  }

  predicate ReadsBetween(body: string, i: nat, first: Token, last: Token, field: Field)
    requires i < |body|
  {
    && body[i] == '-' && ReadsToken(body[..i], first, field) && ReadsToken(body[i + 1..], last, field)
    && Meaning(first, field) <= Meaning(last, field)
  }

  predicate ReadsSpan(body: string, span: Span, field: Field) {
    match span
    case All => body == "*"
    case From(token) => ReadsToken(body, token, field)
    case Between(first, last) => exists i: nat | i < |body| :: ReadsBetween(body, i, first, last, field)
  }

  predicate ReadsStep(chunk: string, i: nat, span: Span, step: nat, field: Field)
    requires i < |chunk|
  {
    var digits := chunk[i + 1..];
    chunk[i] == '/' && ReadsSpan(chunk[..i], span, field) && digits != [] && AllDigits(digits) && 1 <= ToNat(digits) == step
  }

  predicate ReadsTerm(chunk: string, t: Term, field: Field) {
    if t.step.None? then ReadsSpan(chunk, t.span, field)
    else exists i: nat | i < |chunk| :: ReadsStep(chunk, i, t.span, t.step.value, field)
  }

  // Values

  lemma MonthIsNamed(token: string)
    requires token in MONTHS
    ensures 1 <= MONTHS[token] <= 12 && MONTH_NAMES[MONTHS[token] - 1] == token
  {
  }

  lemma WeekdayIsNamed(token: string)
    requires token in WEEKDAYS
    ensures WEEKDAYS[token] < 7 && WEEKDAY_NAMES[WEEKDAYS[token]] == token
  {
  }

  lemma DigitsAreNoName(token: string)
    requires token != [] && AllDigits(token)
    ensures token !in MONTHS && token !in WEEKDAYS && IsPlain(token)
  {
    assert IsDigit(token[0]);
  }

  lemma StripTwice(text: string)
    ensures Strip(Strip(text)) == Strip(text)
  {
    StripTrims(text);
    StripOfTrimmed(Strip(text));
  }

  lemma TokenIsItsText(text: string, t: Token, field: Field)
    requires ReadsToken(text, t, field)
    ensures Value(text, field) == Ok(Meaning(t, field)) && IsPlain(Strip(text))
  {
    hide Strip;
    match t
    case Number(n) => DigitsAreNoName(Strip(text));
    case Name(n) =>
      TokenIsValue(t, field);
      TokenIsPlain(t, field);
      StripTwice(text);
  }

  lemma ValueIsToken(text: string, field: Field) returns (t: Token)
    requires Value(text, field).Ok?
    ensures ReadsToken(text, t, field) && Meaning(t, field) == Value(text, field).value
  {
    hide Strip;
    var token := Strip(text);
    if field == Month && token in MONTHS {
      MonthIsNamed(token);
      t := Name(MONTHS[token]);
    } else if field == Weekday && token in WEEKDAYS {
      WeekdayIsNamed(token);
      t := Name(WEEKDAYS[token]);
    } else {
      t := Number(ToNat(token));
    }
  }

  /** Nothing in the text of a value is mistaken for a dash, a slash, a comma or a star. */
  lemma TokenHoldsNoMark(text: string, t: Token, field: Field)
    requires ReadsToken(text, t, field)
    ensures text != [] && text != "*" && '-' !in text && '/' !in text && StripDashes(text) == text && ValidToken(t, field)
  {
    TokenIsItsText(text, t, field);
    var before, after := StripParts(text);
    var token := Strip(text);
    hide Strip, ReadsToken;
    assert forall i | 0 <= i < |token| :: IsDigit(token[i]) || 'a' <= token[i] <= 'z';
    forall i | 0 <= i < |text| ensures IsSpace(text[i]) || IsDigit(text[i]) || 'a' <= text[i] <= 'z' {
      if i < |before| {
        assert text[i] == before[i];
      } else if i < |before| + |token| {
        assert text[i] == token[i - |before|];
      } else {
        assert text[i] == after[i - |before| - |token|];
      }
    }
    assert text != [];
    assert IsSpace(text[0]) || IsDigit(text[0]) || 'a' <= text[0] <= 'z';
  }

  // Spans

  lemma SpanHoldsNoSlash(body: string, span: Span, field: Field)
    requires ReadsSpan(body, span, field)
    ensures body != [] && '/' !in body && ValidTerm(Term(span, None), field)
  {
    hide ReadsToken, StripDashes, ValidToken, Meaning;
    match span
    case All =>
    case From(token) => TokenHoldsNoMark(body, token, field);
    case Between(first, last) =>
      var i: nat :| i < |body| && ReadsBetween(body, i, first, last, field);
      TokenHoldsNoMark(body[..i], first, field);
      TokenHoldsNoMark(body[i + 1..], last, field);
      assert body == body[..i] + ['-'] + body[i + 1..];
  }

  lemma SpanIsBounds(body: string, span: Span, stepped: bool, field: Field)
    requires ReadsSpan(body, span, field)
    ensures Bounds(body, stepped, field) == Ok(Ends(Term(span, if stepped then Some(1) else None), field))
  {
    hide Value, Strip;
    match span
    case All =>
    case From(token) =>
      TokenHoldsNoMark(body, token, field);
      TokenIsItsText(body, token, field);
      hide ReadsToken;
    case Between(first, last) =>
      var i: nat :| i < |body| && ReadsBetween(body, i, first, last, field);
      TokenHoldsNoMark(body[..i], first, field);
      TokenIsItsText(body[..i], first, field);
      TokenIsItsText(body[i + 1..], last, field);
      hide ReadsToken;
      DashSplits(body, i);
  }

  lemma DashSplits(body: string, i: nat)
    requires i < |body| && body[i] == '-' && body[..i] != [] && '-' !in body[..i]
    ensures IndexOf(body, '-') == i && '-' in StripDashes(body) && body != "*"
  {
    assert body == body[..i] + ['-'] + body[i + 1..];
    IndexOfIn(body[..i], '-', body[i + 1..]);
    assert body[0] == body[..i][0];
    assert StripDashes(body) == body;
  }

  lemma BoundsAreSpan(body: string, stepped: bool, field: Field) returns (span: Span)
    requires Bounds(body, stepped, field).Ok?
    ensures ReadsSpan(body, span, field)
  {
    hide Value, ReadsToken;
    if body == "*" {
      span := All;
    } else if '-' in StripDashes(body) {
      var dash := IndexOf(body, '-');
      var first := ValueIsToken(body[..dash], field);
      var last := ValueIsToken(body[dash + 1..], field);
      assert ReadsBetween(body, dash, first, last, field);
      span := Between(first, last);
    } else {
      var token := ValueIsToken(body, field);
      span := From(token);
    }
  }

  // Chunks

  lemma TermIsRange(chunk: string, t: Term, field: Field)
    requires ReadsTerm(chunk, t, field)
    ensures ValidTerm(t, field) && Chunk(chunk, field) == Ok(Range(Ends(t, field).0, Ends(t, field).1, StepOf(t)))
  {
    hide ReadsSpan, Bounds, Range;
    if t.step.None? {
      SpanHoldsNoSlash(chunk, t.span, field);
      SpanIsBounds(chunk, t.span, false, field);
      assert IndexOf(chunk, '/') == |chunk| && chunk[..|chunk|] == chunk;
    } else {
      var i: nat :| i < |chunk| && ReadsStep(chunk, i, t.span, t.step.value, field);
      SpanHoldsNoSlash(chunk[..i], t.span, field);
      SpanIsBounds(chunk[..i], t.span, true, field);
      assert chunk == chunk[..i] + ['/'] + chunk[i + 1..];
      IndexOfIn(chunk[..i], '/', chunk[i + 1..]);
    }
  }

  lemma ChunkIsTerm(chunk: string, field: Field) returns (t: Term)
    requires Chunk(chunk, field).Ok?
    ensures ReadsTerm(chunk, t, field)
  {
    hide ReadsSpan, Bounds, Range;
    var slash := IndexOf(chunk, '/');
    if slash == |chunk| {
      assert chunk[..slash] == chunk;
      var span := BoundsAreSpan(chunk, false, field);
      t := Term(span, None);
    } else {
      var span := BoundsAreSpan(chunk[..slash], true, field);
      t := Term(span, Some(ToNat(chunk[slash + 1..])));
      assert ReadsStep(chunk, slash, span, t.step.value, field);
    }
  }

  /** A chunk is accepted if and only if it is in the grammar, and then it names what its form
      names: a value alone itself, one with a step everything from it on, and so on. */
  lemma ChunkIff(chunk: string, field: Field)
    ensures Chunk(chunk, field).Ok? <==> exists t :: ReadsTerm(chunk, t, field)
    ensures forall t, x | ReadsTerm(chunk, t, field) :: x in Chunk(chunk, field).value <==> TermNames(t, field, x)
  {
    if Chunk(chunk, field).Ok? {
      var t := ChunkIsTerm(chunk, field);
    } else if t :| ReadsTerm(chunk, t, field) {
      TermIsRange(chunk, t, field);
    }
    hide Chunk, ReadsTerm, TermNames, Range, ValidTerm;
    forall t, x | ReadsTerm(chunk, t, field)
      ensures Chunk(chunk, field).Ok? && (x in Chunk(chunk, field).value <==> TermNames(t, field, x))
    {
      TermIsRange(chunk, t, field);
      RangeMeans(t, field, x);
    }
  }

  // Complaints

  predicate Slashed(chunk: string, i: nat, rest: string) {
    i < |chunk| && chunk[i] == '/' && rest == chunk[i + 1..]
  }

  lemma {:induction false} ZeroIff(digits: string)
    requires AllDigits(digits)
    ensures ToNat(digits) == 0 <==> forall i | 0 <= i < |digits| :: digits[i] == '0'
  {
    if digits != [] {
      var n := |digits| - 1;
      ZeroIff(digits[..n]);
      assert forall i | 0 <= i < n :: digits[..n][i] == digits[i];
    }
  }

  lemma BoundsComplain(body: string, stepped: bool, field: Field)
    ensures Bounds(body, stepped, field) != Err(BadChunk(field)) && Bounds(body, stepped, field) != Err(BadStep(field))
  {
  }

  lemma FirstSlash(chunk: string, i: nat, rest: string)
    requires Slashed(chunk, i, rest)
    ensures var slash := IndexOf(chunk, '/');
            slash <= i && (i == slash ==> '/' !in chunk[..i]) && (slash < i ==> '/' in chunk[slash + 1..] && '/' in chunk[..i])
  {
    var slash := IndexOf(chunk, '/');
    if slash < i { assert chunk[slash + 1..][i - slash - 1] == '/' && chunk[..i][slash] == '/'; }
  }

  /** What is wrong with a chunk's shape is said before anything else is: nothing before a slash, or
      something other than digits after one. */
  lemma BadShapeIff(chunk: string, field: Field)
    ensures Chunk(chunk, field) == Err(BadChunk(field)) <==>
            || chunk == [] || chunk[0] == '/'
            || exists i: nat, rest :: Slashed(chunk, i, rest) && (rest == [] || exists c :: c in rest && !('0' <= c <= '9'))
  {
    var slash := IndexOf(chunk, '/');
    BoundsComplain(chunk[..slash], true, field);
    BoundsComplain(chunk[..slash], false, field);
    hide Bounds, ToNat, IndexOf;
    forall i: nat, rest | Slashed(chunk, i, rest) ensures slash <= i && (slash < i ==> '/' in chunk[slash + 1..]) {
      FirstSlash(chunk, i, rest);
    }
    if slash < |chunk| {
      var step := chunk[slash + 1..];
      assert Slashed(chunk, slash, step);
      if !AllDigits(step) {
        var k :| 0 <= k < |step| && !IsDigit(step[k]);
        assert step[k] in step;
      }
    }
  }

  /** Next comes a step of zero, however it is written. */
  lemma ZeroStepIff(chunk: string, field: Field)
    ensures Chunk(chunk, field) == Err(BadStep(field)) <==>
            && chunk != [] && chunk[0] != '/'
            && exists i: nat, rest :: Slashed(chunk, i, rest) && rest != [] && '/' !in chunk[..i] && forall c :: c in rest ==> c == '0'
  {
    var slash := IndexOf(chunk, '/');
    BoundsComplain(chunk[..slash], true, field);
    BoundsComplain(chunk[..slash], false, field);
    hide Bounds, ToNat, IndexOf;
    forall i: nat, rest | Slashed(chunk, i, rest) && '/' !in chunk[..i] ensures i == slash {
      FirstSlash(chunk, i, rest);
    }
    if slash < |chunk| {
      var step := chunk[slash + 1..];
      FirstSlash(chunk, slash, step);
      assert forall i | 0 <= i < |step| :: step[i] in step;
      if AllDigits(step) {
        ZeroIff(step);
        assert Slashed(chunk, slash, step);
      }
    }
  }

  // Fields and expressions

  lemma {:induction false} UnionIff(chunks: seq<string>, field: Field, x: nat)
    ensures Union(chunks, field).Ok? <==> forall chunk | chunk in chunks :: Chunk(chunk, field).Ok?
    ensures Union(chunks, field).Ok? ==>
              (x in Union(chunks, field).value <==> exists chunk | chunk in chunks :: Chunk(chunk, field).Ok? && x in Chunk(chunk, field).value)
  {
    hide Chunk;
    if chunks != [] {
      UnionIff(chunks[1..], field, x);
      assert chunks == [chunks[0]] + chunks[1..];
    }
  }

  /** Some reading of some chunk of the field names this value. */
  ghost predicate FieldNames(part: string, field: Field, x: nat) {
    exists chunk, t | chunk in SplitOn(part, ',') :: ReadsTerm(chunk, t, field) && TermNames(t, field, x)
  }

  ghost predicate InGrammar(part: string, field: Field) {
    forall chunk | chunk in SplitOn(part, ',') :: exists t :: ReadsTerm(chunk, t, field)
  }

  lemma FieldIff(part: string, field: Field, x: nat)
    ensures FieldValues(part, field).Ok? <==> InGrammar(part, field)
    ensures FieldValues(part, field).Ok? ==> (x in FieldValues(part, field).value <==> FieldNames(part, field, x))
  {
    var chunks := SplitOn(part, ',');
    UnionIff(chunks, field, x);
    hide SplitOn, Chunk, ReadsTerm, TermNames;
    forall chunk | chunk in chunks
      ensures Chunk(chunk, field).Ok? <==> exists t :: ReadsTerm(chunk, t, field)
      ensures forall t | ReadsTerm(chunk, t, field) :: x in Chunk(chunk, field).value <==> TermNames(t, field, x)
    {
      ChunkIff(chunk, field);
    }
  }

  /** An expression is accepted if and only if, trimmed, in small letters and with an alias written
      out, it has five words and each is in its field's grammar. */
  lemma AcceptedIff(expression: string)
    ensures var parts := FieldsRead(expression);
            Parsed(expression).Ok? <==>
            && |parts| == 5 && InGrammar(parts[0], Minute) && InGrammar(parts[1], Hour) && InGrammar(parts[2], Day)
            && InGrammar(parts[3], Month) && InGrammar(parts[4], Weekday)
  {
    var parts := FieldsRead(expression);
    hide FieldsRead, Parsed, FieldValues, InGrammar, FieldNames;
    if |parts| == 5 {
      FieldIff(parts[0], Minute, 0);
      FieldIff(parts[1], Hour, 0);
      FieldIff(parts[2], Day, 0);
      FieldIff(parts[3], Month, 0);
      FieldIff(parts[4], Weekday, 0);
    }
    if Parsed(expression).Ok? {
      AcceptedFields(expression);
    } else if |parts| == 5 {
      RefusedHasBadField(expression);
    }
  }

  lemma RefusedHasBadField(expression: string)
    requires Parsed(expression).Err? && |FieldsRead(expression)| == 5
    ensures exists k | 0 <= k < 5 :: FieldValues(FieldsRead(expression)[k], FIELDS[k]).Err?
  {
    RefusedIs(expression);
    assert Strip(expression) != [];
    hide FieldValues, FieldsRead;
  }

  lemma NamedIff(part: string, field: Field, x: nat)
    requires InGrammar(part, field)
    ensures x in Named(part, field) <==> FieldNames(part, field, x)
  {
    hide FieldValues, InGrammar, FieldNames;
    FieldIff(part, field, x);
  }

  /** What is accepted names a minute exactly when some reading of each field does, by the rule for
      the day and the weekday. */
  lemma AcceptedNames(expression: string, t: nat)
    requires Parsed(expression).Ok?
    ensures var parts, n := FieldsRead(expression), Calendar.DayOf(t);
            && |parts| == 5
            && var day, weekday := FieldNames(parts[2], Day, Calendar.DateOf(n).day), FieldNames(parts[4], Weekday, Calendar.Weekday(n));
               Parsed(expression).value.Matches(t) <==>
               && FieldNames(parts[0], Minute, Calendar.MinuteOf(t)) && FieldNames(parts[1], Hour, Calendar.HourOf(t))
               && FieldNames(parts[3], Month, Calendar.DateOf(n).month)
               && (if parts[2] == "*" then weekday else if parts[4] == "*" then day else day || weekday)
  {
    hide *;
    var parts, n := FieldsRead(expression), Calendar.DayOf(t);
    AcceptedIff(expression);
    AcceptedMeans(expression, t);
    NamedIff(parts[0], Minute, Calendar.MinuteOf(t));
    NamedIff(parts[1], Hour, Calendar.HourOf(t));
    NamedIff(parts[2], Day, Calendar.DateOf(n).day);
    NamedIff(parts[3], Month, Calendar.DateOf(n).month);
    NamedIff(parts[4], Weekday, Calendar.Weekday(n));
  }
}
