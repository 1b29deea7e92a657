/** Parsing a five-field cron expression. */
module ScheduleText {
  import opened Wrappers
  import opened Text
  import opened Schedule
  import Calendar

  datatype Field = Minute | Hour | Day | Month | Weekday {
    function Low(): nat {
      match this
      case Day => 1
      case Month => 1
      case _ => 0
    }

    function High(): nat {
      match this
      case Minute => 59
      case Hour => 23
      case Day => 31
      case Month => 12
      case Weekday => 6
    }
  }

  const FIELDS := [Minute, Hour, Day, Month, Weekday]

  datatype InvalidSchedule =
    | Required
    | FieldCount(found: nat)
    | BadChunk(field: Field)
    | BadStep(field: Field)
    | NotANumber(field: Field)
    | OutOfRange(field: Field)
    | Backwards(field: Field)
    | MatchesNothing(field: Field)

  const MONTHS: map<string, nat> := map[
    "jan" := 1, "feb" := 2, "mar" := 3, "apr" := 4, "may" := 5, "jun" := 6,
    "jul" := 7, "aug" := 8, "sep" := 9, "oct" := 10, "nov" := 11, "dec" := 12]

  const WEEKDAYS: map<string, nat> := map[
    "sun" := 0, "mon" := 1, "tue" := 2, "wed" := 3, "thu" := 4, "fri" := 5, "sat" := 6]

  function Alias(raw: string): string {
    if raw == "@yearly" || raw == "@annually" then "0 0 1 1 *"
    else if raw == "@monthly" then "0 0 1 * *"
    else if raw == "@weekly" then "0 0 * * 0"
    else if raw == "@daily" || raw == "@midnight" then "0 0 * * *"
    else if raw == "@hourly" then "0 * * * *"
    else raw
  }

  /** One value of a field: a name or a number, with 7 accepted for Sunday. */
  function Value(text: string, field: Field): (r: Result<nat, InvalidSchedule>)
    ensures r.Ok? ==> field.Low() <= r.value <= field.High()
  {
    var token := Strip(text);
    if field == Month && token in MONTHS then Ok(MONTHS[token])
    else if field == Weekday && token in WEEKDAYS then Ok(WEEKDAYS[token])
    else if token == [] || !AllDigits(token) then Err(NotANumber(field))
    else
      var value := ToNat(token);
      if field == Weekday && value == 7 then Ok(0)
      else if field.Low() <= value <= field.High() then Ok(value)
      else Err(OutOfRange(field))
  }

  predicate OnStep(x: nat, start: nat, step: nat)
    requires start <= x && 1 <= step
  {
    (x - start) % step == 0
  }

  /** `start`, `start + step`, ... up to `end`. */
  function Range(start: nat, end: nat, step: nat): set<nat>
    requires 1 <= step
  {
    set x: nat | start <= x <= end && OnStep(x, start, step)
  }

  function StripDashes(s: string): string {
    if s != [] && s[0] == '-' then StripDashes(s[1..]) else s
  }

  /** The range part of a chunk, as its first and last value. */
  function Bounds(body: string, stepped: bool, field: Field): (r: Result<(nat, nat), InvalidSchedule>)
    ensures r.Ok? ==> field.Low() <= r.value.0 <= r.value.1 <= field.High()
  {
    if body == "*" then Ok((field.Low(), field.High()))
    else if '-' in StripDashes(body) then
      var dash := IndexOf(body, '-');
      var start := Value(body[..dash], field);
      if start.Err? then Err(start.error)
      else if dash == |body| then Err(NotANumber(field))
      else
        var end := Value(body[dash + 1..], field);
        if end.Err? then Err(end.error)
        else if start.value > end.value then Err(Backwards(field))
        else Ok((start.value, end.value))
    else
      var start := Value(body, field);
      if start.Err? then Err(start.error)
      else Ok((start.value, if stepped then field.High() else start.value))
  }

  /** A chunk's range part, taken with its step. */
  function Stepped(body: string, stepped: bool, step: nat, field: Field): (r: Result<set<nat>, InvalidSchedule>)
    ensures r.Ok? ==> r.value != {} && forall x | x in r.value :: field.Low() <= x <= field.High()
  {
    if step < 1 then Err(BadStep(field))
    else
      var bounds := Bounds(body, stepped, field);
      if bounds.Err? then Err(bounds.error)
      else
        assert bounds.value.0 in Range(bounds.value.0, bounds.value.1, step);
        Ok(Range(bounds.value.0, bounds.value.1, step))
  }

  /** One comma-separated chunk: a range, optionally with a step. */
  function Chunk(chunk: string, field: Field): (r: Result<set<nat>, InvalidSchedule>)
    ensures r.Ok? ==> r.value != {} && forall x | x in r.value :: field.Low() <= x <= field.High()
  {
    var slash := IndexOf(chunk, '/');
    var body := chunk[..slash];
    if body == [] then Err(BadChunk(field))
    else if slash == |chunk| then Stepped(body, false, 1, field)
    else
      var step := chunk[slash + 1..];
      if step == [] || !AllDigits(step) then Err(BadChunk(field)) else Stepped(body, true, ToNat(step), field)
  }

  /** The union of the chunks, or the first chunk's complaint. */
  function Union(chunks: seq<string>, field: Field): (r: Result<set<nat>, InvalidSchedule>)
    ensures r.Ok? ==> forall x | x in r.value :: field.Low() <= x <= field.High()
    ensures r.Ok? && chunks != [] ==> r.value != {}
  {
    if chunks == [] then Ok({})
    else
      var first := Chunk(chunks[0], field);
      if first.Err? then Err(first.error)
      else
        var rest := Union(chunks[1..], field);
        if rest.Err? then Err(rest.error) else Ok(first.value + rest.value)
  }

  function FieldValues(part: string, field: Field): Result<set<nat>, InvalidSchedule> {
    Union(SplitOn(part, ','), field)
  }

  /** The values of the whole field, given those of its first chunks and the outcome of the rest. */
  function Joined(values: set<nat>, rest: Result<set<nat>, InvalidSchedule>): Result<set<nat>, InvalidSchedule> {
    if rest.Err? then rest else Ok(values + rest.value)
  }

  lemma JoinedNothing(rest: Result<set<nat>, InvalidSchedule>)
    ensures Joined({}, rest) == rest
  {
    if rest.Ok? { assert {} + rest.value == rest.value; }
  }

  method ParseField(part: string, field: Field) returns (r: Result<set<nat>, InvalidSchedule>)
    ensures r == FieldValues(part, field)
  {
    hide Chunk, SplitOn;
    var chunks := SplitOn(part, ',');
    var values: set<nat> := {};
    assert chunks[0..] == chunks;
    JoinedNothing(Union(chunks, field));
    for i := 0 to |chunks|
      invariant values != {} || i == 0
      invariant FieldValues(part, field) == Joined(values, Union(chunks[i..], field))
    {
      var chunk := Chunk(chunks[i], field);
      assert chunks[i..][1..] == chunks[i + 1..];
      if chunk.Err? {
        return Err(chunk.error);
      }
      ghost var rest := Union(chunks[i + 1..], field);
      assert rest.Ok? ==> values + (chunk.value + rest.value) == (values + chunk.value) + rest.value;
      values := values + chunk.value;
    }
    if values == {} {
      return Err(MatchesNothing(field));
    }
    return Ok(values);
  }

  /** The complaint that a field matches nothing is never made: every chunk that parses
      names at least its first value. */
  lemma {:induction false} NeverMatchesNothing(chunks: seq<string>, field: Field)
    ensures Union(chunks, field) != Err(MatchesNothing(field))
  {
    if chunks != [] {
      ChunkMatchesSomething(chunks[0], field);
      NeverMatchesNothing(chunks[1..], field);
    }
  }

  lemma BoundsNotEmpty(body: string, stepped: bool, field: Field)
    ensures Bounds(body, stepped, field) != Err(MatchesNothing(field))
  {
  }

  lemma ChunkMatchesSomething(chunk: string, field: Field)
    ensures Chunk(chunk, field) != Err(MatchesNothing(field))
  {
    BoundsNotEmpty(chunk[..IndexOf(chunk, '/')], true, field);
    BoundsNotEmpty(chunk[..IndexOf(chunk, '/')], false, field);
  }

  /** Each part parsed as its field: all their values, or the first complaint. */
  function FieldsOf(parts: seq<string>, fields: seq<Field>): (r: Result<seq<set<nat>>, InvalidSchedule>)
    requires |parts| == |fields|
    ensures r.Ok? ==> |r.value| == |parts|
  {
    if parts == [] then Ok([])
    else
      var first := FieldValues(parts[0], fields[0]);
      if first.Err? then Err(first.error)
      else
        var rest := FieldsOf(parts[1..], fields[1..]);
        if rest.Err? then Err(rest.error) else Ok([first.value] + rest.value)
  }

  function FromFields(parts: seq<string>, fields: seq<set<nat>>): CronSchedule
    requires |parts| == 5 && |fields| == 5
  {
    CronSchedule(
      fields[0], fields[1], fields[2], fields[3], fields[4],
      parts[2] != "*", parts[4] != "*", JoinWords(parts))
  }

  function ParseParts(parts: seq<string>): Result<CronSchedule, InvalidSchedule> {
    if |parts| != 5 then Err(FieldCount(|parts|))
    else
      var fields := FieldsOf(parts, FIELDS);
      if fields.Err? then Err(fields.error) else Ok(FromFields(parts, fields.value))
  }

  function Parsed(expression: string): Result<CronSchedule, InvalidSchedule> {
    var raw := Lower(Strip(expression));
    if raw == [] then Err(Required) else ParseParts(Words(Alias(raw)))
  }

  lemma AppendedNothing(rest: Result<seq<set<nat>>, InvalidSchedule>)
    ensures Appended([], rest) == rest
  {
    if rest.Ok? { assert [] + rest.value == rest.value; }
  }

  /** The field loop of `Parse`. */
  method ParseFields(parts: seq<string>, fields: seq<Field>) returns (r: Result<seq<set<nat>>, InvalidSchedule>)
    requires |parts| == |fields|
    ensures r == FieldsOf(parts, fields)
  {
    var parsed: seq<set<nat>> := [];
    assert parts[0..] == parts && fields[0..] == fields;
    AppendedNothing(FieldsOf(parts, fields));
    for k := 0 to |parts|
      invariant |parsed| == k
      invariant FieldsOf(parts, fields) == Appended(parsed, FieldsOf(parts[k..], fields[k..]))
    {
      AppendedNext(parsed, parts[k..], fields[k..]);
      assert parts[k..][1..] == parts[k + 1..] && fields[k..][1..] == fields[k + 1..];
      var field := ParseField(parts[k], fields[k]);
      if field.Err? {
        return Err(field.error);
      }
      parsed := parsed + [field.value];
    }
    assert parsed + [] == parsed;
    return Ok(parsed);
  }

  method Parse(expression: string) returns (r: Result<CronSchedule, InvalidSchedule>)
    ensures r == Parsed(expression)
  {
    var raw := Lower(Strip(expression));
    if raw == [] {
      return Err(Required);
    }
    raw := Alias(raw);
    var parts := Words(raw);
    if |parts| != 5 {
      return Err(FieldCount(|parts|));
    }
    var fields := ParseFields(parts, FIELDS);
    if fields.Err? {
      return Err(fields.error);
    }
    return Ok(FromFields(parts, fields.value));
  }

  function Appended(fields: seq<set<nat>>, rest: Result<seq<set<nat>>, InvalidSchedule>): Result<seq<set<nat>>, InvalidSchedule> {
    if rest.Err? then rest else Ok(fields + rest.value)
  }

  lemma AppendedNext(values: seq<set<nat>>, parts: seq<string>, fields: seq<Field>)
    requires |parts| == |fields| && parts != []
    ensures var first := FieldValues(parts[0], fields[0]);
            Appended(values, FieldsOf(parts, fields)) ==
            if first.Err? then Err(first.error)
            else Appended(values + [first.value], FieldsOf(parts[1..], fields[1..]))
  {
    var first := FieldValues(parts[0], fields[0]);
    var rest := FieldsOf(parts[1..], fields[1..]);
    if first.Ok? && rest.Ok? {
      assert values + ([first.value] + rest.value) == (values + [first.value]) + rest.value;
    }
  }

  lemma {:induction false} FieldsAt(parts: seq<string>, fields: seq<Field>, k: nat)
    requires |parts| == |fields| && k < |parts| && FieldsOf(parts, fields).Ok?
    ensures FieldValues(parts[k], fields[k]) == Ok(FieldsOf(parts, fields).value[k])
  {
    hide FieldValues;
    if 0 < k {
      FieldsAt(parts[1..], fields[1..], k - 1);
    }
  }

  lemma FieldsAreFull(parts: seq<string>)
    requires |parts| == 5 && FieldsOf(parts, FIELDS).Ok?
    ensures forall k | 0 <= k < 5 :: FieldValues(parts[k], FIELDS[k]) == Ok(FieldsOf(parts, FIELDS).value[k])
  {
    forall k | 0 <= k < 5 ensures FieldValues(parts[k], FIELDS[k]) == Ok(FieldsOf(parts, FIELDS).value[k]) {
      FieldsAt(parts, FIELDS, k);
    }
  }

  /** Every accepted expression gives a schedule with full, in-range fields. */
  lemma ParsedIsWellFormed(expression: string)
    requires Parsed(expression).Ok?
    ensures WellFormed(Parsed(expression).value)
  {
    PartsAreWellFormed(Words(Alias(Lower(Strip(expression)))));
    hide WellFormed, ParseParts, Words, Alias, Lower, Strip;
  }

  lemma PartsAreWellFormed(parts: seq<string>)
    requires ParseParts(parts).Ok?
    ensures WellFormed(ParseParts(parts).value)
  {
    FieldsAreFull(parts);
    StarIsEverything(Day);
    StarIsEverything(Weekday);
    hide FieldValues, FieldsOf;
  }

  lemma StarIsEverything(field: Field)
    ensures FieldValues("*", field).Ok?
    ensures forall x: nat | field.Low() <= x <= field.High() :: x in FieldValues("*", field).value
  {
    assert SplitOn("*", ',') == ["*"];
    assert "*"[..IndexOf("*", '/')] == "*";
    assert Chunk("*", field) == Ok(Range(field.Low(), field.High(), 1));
    assert Union(["*"][1..], field) == Ok({});
    assert forall x: nat | field.Low() <= x <= field.High() :: OnStep(x, field.Low(), 1);
  }

  // Reading a stored expression again

  /** No upper-case letter. */
  predicate IsLower(s: string) {
    forall i | 0 <= i < |s| :: !('A' <= s[i] <= 'Z')
  }

  lemma LowerOfLower(s: string)
    requires IsLower(s)
    ensures Lower(s) == s
  {
  }

  lemma AliasesAreLower(raw: string)
    requires IsLower(raw)
    ensures IsLower(Alias(raw))
  {
  }

  lemma {:induction false} JoinIsLower(words: seq<string>)
    requires forall i | 0 <= i < |words| :: IsLower(words[i])
    ensures IsLower(JoinWords(words))
  {
    if |words| > 1 {
      JoinIsLower(words[1..]);
    }
  }

  lemma {:induction false} JoinIsTrimmed(words: seq<string>)
    requires words != [] && forall i | 0 <= i < |words| :: IsWord(words[i])
    ensures JoinWords(words) != [] && Trimmed(JoinWords(words))
  {
    if |words| > 1 {
      JoinIsTrimmed(words[1..]);
      var s := JoinWords(words);
      var rest := JoinWords(words[1..]);
      assert s[0] == words[0][0] && s[|s| - 1] == rest[|rest| - 1];
    }
  }

  lemma AliasesHoldNoSpace(raw: string)
    requires ' ' in raw
    ensures Alias(raw) == raw
  {
  }

  /** Words joined are never one of the aliases. */
  lemma JoinIsNoAlias(words: seq<string>)
    requires |words| == 5 && forall i | 0 <= i < |words| :: IsWord(words[i])
    ensures Alias(JoinWords(words)) == JoinWords(words)
  {
    var s := JoinWords(words);
    assert s[|words[0]|] == ' ';
    AliasesHoldNoSpace(s);
  }

  lemma LowerWords(raw: string)
    requires IsLower(raw)
    ensures forall i | 0 <= i < |Words(raw)| :: IsLower(Words(raw)[i])
  {
    WordsAreWords(raw);
    forall i, j | 0 <= i < |Words(raw)| && 0 <= j < |Words(raw)[i]| ensures !('A' <= Words(raw)[i][j] <= 'Z') {
      assert Words(raw)[i][j] in raw;
    }
  }

  /** The normalised text a schedule carries parses back to that very schedule: aliases,
      capitals and stray spaces are gone, and nothing else changed. */
  lemma NormalisedParsesBack(expression: string)
    requires Parsed(expression).Ok?
    ensures Parsed(Parsed(expression).value.expression) == Parsed(expression)
  {
    var raw := Lower(Strip(expression));
    AliasesAreLower(raw);
    var parts := Words(Alias(raw));
    WordsAreWords(Alias(raw));
    LowerWords(Alias(raw));
    var text := JoinWords(parts);
    JoinIsTrimmed(parts);
    StripOfTrimmed(text);
    JoinIsLower(parts);
    LowerOfLower(text);
    JoinIsNoAlias(parts);
    WordsOfJoin(parts);
  }

  // What a field means, whatever its text

  /** A value as it can be written: a number, or a month's or weekday's name. */
  datatype Token = Number(n: nat) | Name(n: nat)

  datatype Span = All | From(first: Token) | Between(first: Token, last: Token)

  /** One chunk as its writer means it: a span, and perhaps a step. */
  datatype Term = Term(span: Span, step: Option<nat>)

  const MONTH_NAMES := ["jan", "feb", "mar", "apr", "may", "jun", "jul", "aug", "sep", "oct", "nov", "dec"]
  const WEEKDAY_NAMES := ["sun", "mon", "tue", "wed", "thu", "fri", "sat"]

  predicate ValidToken(t: Token, field: Field) {
    match t
    case Number(n) => field.Low() <= n <= field.High() || (field == Weekday && n == 7)
    case Name(n) => (field == Month && 1 <= n <= 12) || (field == Weekday && n < 7)
  }

  function TokenText(t: Token, field: Field): string
    requires ValidToken(t, field)
  {
    match t
    case Number(n) => Decimal(n)
    case Name(n) => if field == Month then MONTH_NAMES[n - 1] else WEEKDAY_NAMES[n]
  }

  /** Sunday is 0, and 7 as well. */
  function Meaning(t: Token, field: Field): nat {
    if field == Weekday && t == Number(7) then 0 else t.n
  }

  predicate ValidSpan(span: Span, field: Field) {
    match span
    case All => true
    case From(a) => ValidToken(a, field)
    case Between(a, b) => ValidToken(a, field) && ValidToken(b, field)
  }

  predicate ValidTerm(t: Term, field: Field) {
    && (t.step.Some? ==> 1 <= t.step.value) && ValidSpan(t.span, field)
    && (t.span.Between? ==> Meaning(t.span.first, field) <= Meaning(t.span.last, field))
  }

  function SpanText(span: Span, field: Field): string
    requires ValidSpan(span, field)
  {
    match span
    case All => "*"
    case From(a) => TokenText(a, field)
    case Between(a, b) => TokenText(a, field) + "-" + TokenText(b, field)
  }

  function TermText(t: Term, field: Field): string
    requires ValidSpan(t.span, field)
  {
    SpanText(t.span, field) + if t.step.Some? then "/" + Decimal(t.step.value) else ""
  }

  predicate TermNames(t: Term, field: Field, x: nat) {
    var step := if t.step.Some? && 1 <= t.step.value then t.step.value else 1;
    match t.span
    case All => field.Low() <= x <= field.High() && (x - field.Low()) % step == 0
    case From(token) =>
      var a := Meaning(token, field);
      if t.step.Some? then a <= x <= field.High() && (x - a) % step == 0 else x == a
    case Between(first, last) =>
      Meaning(first, field) <= x <= Meaning(last, field) && (x - Meaning(first, field)) % step == 0
  }

  /** Letters or digits: nothing a chunk is split at, and nothing trimmed. */
  predicate IsPlain(text: string) {
    text != [] && forall i | 0 <= i < |text| :: IsDigit(text[i]) || 'a' <= text[i] <= 'z'
  }

  lemma PlainIsWhole(text: string)
    requires IsPlain(text)
    ensures Strip(text) == text && StripDashes(text) == text && text != "*"
    ensures '-' !in text && '/' !in text && ',' !in text
  {
    assert IsDigit(text[0]) || 'a' <= text[0] <= 'z';
    StripOfTrimmed(text);
  }

  lemma DecimalIsPlain(n: nat)
    ensures IsPlain(Decimal(n))
  {
    DecimalReadsBack(n);
  }

  lemma TokenIsPlain(t: Token, field: Field)
    requires ValidToken(t, field)
    ensures IsPlain(TokenText(t, field))
  {
    match t
    case Number(n) => DecimalReadsBack(n);
    case Name(n) =>
      assert forall k | 0 <= k < |MONTH_NAMES| :: IsPlain(MONTH_NAMES[k]);
      assert forall k | 0 <= k < |WEEKDAY_NAMES| :: IsPlain(WEEKDAY_NAMES[k]);
  }

  lemma MonthNamed(n: nat)
    requires 1 <= n <= 12
    ensures MONTH_NAMES[n - 1] in MONTHS && MONTHS[MONTH_NAMES[n - 1]] == n
  {
  }

  lemma WeekdayNamed(n: nat)
    requires n < 7
    ensures WEEKDAY_NAMES[n] in WEEKDAYS && WEEKDAYS[WEEKDAY_NAMES[n]] == n
  {
  }

  lemma NumberIsNoName(n: nat)
    ensures Decimal(n) !in MONTHS && Decimal(n) !in WEEKDAYS
  {
    DecimalReadsBack(n);
    assert IsDigit(Decimal(n)[0]);
  }

  lemma NumberIsValue(n: nat, field: Field)
    ensures Value(Decimal(n), field) ==
            if ValidToken(Number(n), field) then Ok(Meaning(Number(n), field)) else Err(OutOfRange(field))
  {
    DecimalReadsBack(n);
    assert IsPlain(Decimal(n));
    PlainIsWhole(Decimal(n));
    NumberIsNoName(n);
  }

  lemma TokenIsValue(t: Token, field: Field)
    requires ValidToken(t, field)
    ensures Value(TokenText(t, field), field) == Ok(Meaning(t, field))
  {
    match t
    case Number(n) => NumberIsValue(n, field);
    case Name(n) =>
      TokenIsPlain(t, field);
      PlainIsWhole(TokenText(t, field));
      if field == Month { MonthNamed(n); } else { WeekdayNamed(n); }
  }

  /** A range is read as its two ends, whatever comes of each. */
  lemma BoundsOfRange(first: string, last: string, stepped: bool, field: Field)
    requires IsPlain(first) && IsPlain(last)
    ensures Bounds(first + "-" + last, stepped, field) ==
            var start, end := Value(first, field), Value(last, field);
            if start.Err? then Err(start.error)
            else if end.Err? then Err(end.error)
            else if start.value > end.value then Err(Backwards(field))
            else Ok((start.value, end.value))
  {
    PlainIsWhole(first);
    var body := first + "-" + last;
    assert body == first + ['-'] + last;
    IndexOfIn(first, '-', last);
    assert body[|first|] == '-' && body[0] == first[0];
    assert IsDigit(first[0]) || 'a' <= first[0] <= 'z';
    assert StripDashes(body) == body;
    assert body[..|first|] == first && body[|first| + 1..] == last;
    hide Value, IndexOf, Strip;
  }

  /** A range of valid ends is accepted exactly when they do not run backwards, and then it is
      from the one to the other, by name or number. */
  lemma RangeIffForward(first: Token, last: Token, stepped: bool, field: Field)
    requires ValidToken(first, field) && ValidToken(last, field)
    ensures Bounds(TokenText(first, field) + "-" + TokenText(last, field), stepped, field) ==
            if Meaning(first, field) <= Meaning(last, field) then Ok((Meaning(first, field), Meaning(last, field)))
            else Err(Backwards(field))
  {
    TokenIsPlain(first, field);
    TokenIsPlain(last, field);
    BoundsOfRange(TokenText(first, field), TokenText(last, field), stepped, field);
    TokenIsValue(first, field);
    TokenIsValue(last, field);
    hide Bounds, Value, IsPlain, TokenText;
  }

  /** Although 7 is accepted for Sunday, it is read as 0 before the ends of a range are compared:
      a weekday range that ends in 7 is refused as backwards exactly from 1 to 6, and from 0 or 7
      it is Sunday alone. */
  lemma RangeToSevenIsBackwards(a: nat, stepped: bool)
    ensures Bounds(Decimal(a) + "-7", stepped, Weekday) ==
            if a == 0 || a == 7 then Ok((0, 0)) else if a <= 6 then Err(Backwards(Weekday)) else Err(OutOfRange(Weekday))
  {
    assert Decimal(7) == "7" && Decimal(a) + "-7" == Decimal(a) + "-" + "7";
    hide Bounds, Value, IsPlain, Decimal;
    DecimalIsPlain(a);
    DecimalIsPlain(7);
    BoundsOfRange(Decimal(a), Decimal(7), stepped, Weekday);
    NumberIsValue(a, Weekday);
    NumberIsValue(7, Weekday);
  }

  lemma BoundsOfSpan(span: Span, stepped: bool, field: Field)
    requires ValidTerm(Term(span, None), field)
    ensures Bounds(SpanText(span, field), stepped, field) == Ok(
              match span
              case All => (field.Low(), field.High())
              case From(a) => (Meaning(a, field), if stepped then field.High() else Meaning(a, field))
              case Between(a, b) => (Meaning(a, field), Meaning(b, field)))
  {
    match span
    case All =>
    case From(a) =>
      TokenIsPlain(a, field);
      PlainIsWhole(TokenText(a, field));
      TokenIsValue(a, field);
      hide Value, IsPlain, TokenText, StripDashes;
    case Between(a, b) =>
      RangeIffForward(a, b, stepped, field);
      hide Bounds, TokenText, Value;
  }

  lemma SpanTextIsPlain(span: Span, field: Field)
    requires ValidSpan(span, field)
    ensures SpanText(span, field) != [] && '/' !in SpanText(span, field) && ',' !in SpanText(span, field)
  {
    match span
    case All =>
    case From(a) =>
      TokenIsPlain(a, field);
      PlainIsWhole(TokenText(a, field));
    case Between(a, b) =>
      TokenIsPlain(a, field);
      TokenIsPlain(b, field);
      PlainIsWhole(TokenText(a, field));
      PlainIsWhole(TokenText(b, field));
  }

  lemma NoCharIn(n: nat, c: char)
    requires !IsDigit(c)
    ensures c !in Decimal(n)
  {
    DecimalReadsBack(n);
  }

  lemma ChunkSplits(t: Term, field: Field)
    requires ValidSpan(t.span, field)
    ensures Chunk(TermText(t, field), field) ==
            Stepped(SpanText(t.span, field), t.step.Some?, if t.step.Some? then t.step.value else 1, field)
  {
    var body := SpanText(t.span, field);
    SpanTextIsPlain(t.span, field);
    var text := TermText(t, field);
    hide SpanText, Stepped;
    if t.step.Some? {
      DecimalReadsBack(t.step.value);
      assert text == body + ['/'] + Decimal(t.step.value);
      IndexOfIn(body, '/', Decimal(t.step.value));
      assert text[..|body|] == body && text[|body| + 1..] == Decimal(t.step.value);
    } else {
      assert text == body && text[..|text|] == body;
      assert IndexOf(text, '/') == |text|;
    }
  }

  /** The first and last value a term runs over, before its step thins them out. */
  function Ends(t: Term, field: Field): (nat, nat) {
    match t.span
    case All => (field.Low(), field.High())
    case From(a) => (Meaning(a, field), if t.step.Some? then field.High() else Meaning(a, field))
    case Between(a, b) => (Meaning(a, field), Meaning(b, field))
  }

  function StepOf(t: Term): nat {
    if t.step.Some? then t.step.value else 1
  }

  lemma ChunkIsRange(t: Term, field: Field)
    requires ValidTerm(t, field)
    ensures Chunk(TermText(t, field), field) == Ok(Range(Ends(t, field).0, Ends(t, field).1, StepOf(t)))
  {
    ChunkSplits(t, field);
    BoundsOfSpan(t.span, t.step.Some?, field);
    hide Chunk, Bounds, SpanText, TermText, Range;
  }

  lemma RangeMeans(t: Term, field: Field, x: nat)
    requires ValidTerm(t, field)
    ensures x in Range(Ends(t, field).0, Ends(t, field).1, StepOf(t)) <==> TermNames(t, field, x)
  {
  }

  /** A chunk means what its writer meant: `*`, `5`, `5/10`, `mon-fri`, `9-17/4` and the rest. */
  lemma ChunkMeans(t: Term, field: Field)
    requires ValidTerm(t, field)
    ensures Chunk(TermText(t, field), field).Ok?
    ensures forall x :: x in Chunk(TermText(t, field), field).value <==> TermNames(t, field, x)
  {
    ChunkIsRange(t, field);
    hide *;
    forall x: nat ensures x in Chunk(TermText(t, field), field).value <==> TermNames(t, field, x) {
      RangeMeans(t, field, x);
    }
  }

  function FieldText(terms: seq<Term>, field: Field): string
    requires terms != [] && forall t | t in terms :: ValidTerm(t, field)
  {
    assert ValidTerm(terms[0], field);
    if |terms| == 1 then TermText(terms[0], field) else TermText(terms[0], field) + "," + FieldText(terms[1..], field)
  }

  lemma TermHasNoComma(t: Term, field: Field)
    requires ValidSpan(t.span, field)
    ensures ',' !in TermText(t, field)
  {
    SpanTextIsPlain(t.span, field);
    if t.step.Some? {
      NoCharIn(t.step.value, ',');
    }
  }

  lemma UnionOfFirst(first: string, rest: seq<string>, field: Field)
    requires Chunk(first, field).Ok? && Union(rest, field).Ok?
    ensures Union([first] + rest, field) == Ok(Chunk(first, field).value + Union(rest, field).value)
  {
    assert ([first] + rest)[1..] == rest;
  }

  lemma SplitFirst(first: string, rest: string)
    requires ',' !in first
    ensures SplitOn(first, ',') == [first]
    ensures SplitOn(first + "," + rest, ',') == [first] + SplitOn(rest, ',')
  {
    var text := first + "," + rest;
    assert text == first + [','] + rest;
    IndexOfIn(first, ',', rest);
    assert text[..|first|] == first && text[|first| + 1..] == rest;
  }

  predicate SomeNames(terms: seq<Term>, field: Field, x: nat) {
    exists t | t in terms :: TermNames(t, field, x)
  }

  lemma NamesSplit(terms: seq<Term>, field: Field, x: nat)
    requires terms != []
    ensures SomeNames(terms, field, x) <==> TermNames(terms[0], field, x) || SomeNames(terms[1..], field, x)
  {
    hide TermNames;
    assert terms == [terms[0]] + terms[1..];
  }

  /** A whole field names exactly what some chunk of it names. */
  lemma {:induction false} FieldMeans(terms: seq<Term>, field: Field)
    requires terms != [] && forall t | t in terms :: ValidTerm(t, field)
    ensures FieldValues(FieldText(terms, field), field).Ok?
    ensures forall x :: x in FieldValues(FieldText(terms, field), field).value <==> SomeNames(terms, field, x)
  {
    assert ValidTerm(terms[0], field) && ValidSpan(terms[0].span, field);
    hide ValidTerm, ValidSpan, TermNames, TermText, Chunk, SplitOn;
    var first := TermText(terms[0], field);
    ChunkMeans(terms[0], field);
    TermHasNoComma(terms[0], field);
    if |terms| == 1 {
      SplitFirst(first, "");
      UnionOfFirst(first, [], field);
      assert [first] + [] == [first];
    } else {
      var rest := FieldText(terms[1..], field);
      FieldMeans(terms[1..], field);
      SplitFirst(first, rest);
      UnionOfFirst(first, SplitOn(rest, ','), field);
      forall x ensures SomeNames(terms, field, x) <==> TermNames(terms[0], field, x) || SomeNames(terms[1..], field, x) {
        NamesSplit(terms, field, x);
      }
    }
  }

  // What an accepted expression means

  /** The five fields of an expression as it is read: trimmed, in lower case, an alias written out. */
  function FieldsRead(expression: string): seq<string> {
    Words(Alias(Lower(Strip(expression))))
  }

  /** The values a field names; none if it is refused. */
  function Named(part: string, field: Field): set<nat> {
    if FieldValues(part, field).Ok? then FieldValues(part, field).value else {}
  }

  lemma AcceptedFields(expression: string)
    requires Parsed(expression).Ok?
    ensures var parts, s := FieldsRead(expression), Parsed(expression).value;
            && |parts| == 5 && (forall k | 0 <= k < 5 :: FieldValues(parts[k], FIELDS[k]).Ok?)
            && s.minutes == Named(parts[0], Minute) && s.hours == Named(parts[1], Hour) && s.days == Named(parts[2], Day)
            && s.months == Named(parts[3], Month) && s.weekdays == Named(parts[4], Weekday)
            && (s.dayRestricted <==> parts[2] != "*") && (s.weekdayRestricted <==> parts[4] != "*")
  {
    FieldsAreFull(FieldsRead(expression));
    hide FieldValues, FieldsOf, Words, Alias, Lower, Strip;
  }

  /** Every accepted expression names a minute exactly when its first, second and fourth field name
      the minute, hour and month, and so does the date: by the weekday field if the day field is
      `*`, by the day field if the weekday field is, and by either of them if neither is. */
  lemma AcceptedMeans(expression: string, t: nat)
    requires Parsed(expression).Ok?
    ensures var parts, date := FieldsRead(expression), Calendar.DateOf(Calendar.DayOf(t));
            && |parts| == 5
            && var day, weekday := date.day in Named(parts[2], Day), Calendar.Weekday(Calendar.DayOf(t)) in Named(parts[4], Weekday);
               Parsed(expression).value.Matches(t) <==>
               && Calendar.MinuteOf(t) in Named(parts[0], Minute) && Calendar.HourOf(t) in Named(parts[1], Hour)
               && date.month in Named(parts[3], Month)
               && (if parts[2] == "*" then weekday else if parts[4] == "*" then day else day || weekday)
  {
    AcceptedFields(expression);
    ParsedIsWellFormed(expression);
    var s := Parsed(expression).value;
    MatchesByParts(s, t);
    DateRule(s, Calendar.DayOf(t));
    hide Parsed, FieldsRead, Named, Calendar.DateOf, Calendar.DayOf, Calendar.Weekday, Calendar.MinuteOf, Calendar.HourOf, WellFormed;
  }

  /** A field left as `*` names the whole of its range. */
  lemma StarNamesAll(x: nat)
    ensures x in Named("*", Minute) <==> x <= 59
    ensures x in Named("*", Hour) <==> x <= 23
    ensures x in Named("*", Day) <==> 1 <= x <= 31
    ensures x in Named("*", Month) <==> 1 <= x <= 12
    ensures x in Named("*", Weekday) <==> x <= 6
  {
    StarNames(Minute, x);
    StarNames(Hour, x);
    StarNames(Day, x);
    StarNames(Month, x);
    StarNames(Weekday, x);
    hide Named;
  }

  lemma StarNames(field: Field, x: nat)
    ensures x in Named("*", field) <==> field.Low() <= x <= field.High()
  {
    StarIsEverything(field);
    hide SplitOn, Chunk;
  }

  /** An expression is refused with the first complaint there is: nothing there, not five fields,
      or the first field that does not parse. */
  lemma RefusedIs(expression: string)
    requires Parsed(expression).Err?
    ensures var parts, error := FieldsRead(expression), Parsed(expression).error;
            if Strip(expression) == [] then error == Required
            else if |parts| != 5 then error == FieldCount(|parts|)
            else exists k | 0 <= k < 5 :: FieldValues(parts[k], FIELDS[k]) == Err(error)
                                         && forall j | 0 <= j < k :: FieldValues(parts[j], FIELDS[j]).Ok?
  {
    var parts := FieldsRead(expression);
    if Strip(expression) != [] && |parts| == 5 {
      var k := FirstComplaint(parts, FIELDS);
    }
    hide FieldValues, FieldsOf, Words, Alias, Strip;
  }

  lemma {:induction false} FirstComplaint(parts: seq<string>, fields: seq<Field>) returns (k: nat)
    requires |parts| == |fields| && FieldsOf(parts, fields).Err?
    ensures k < |parts| && FieldValues(parts[k], fields[k]) == Err(FieldsOf(parts, fields).error)
    ensures forall j | 0 <= j < k :: FieldValues(parts[j], fields[j]).Ok?
  {
    hide FieldValues;
    if FieldValues(parts[0], fields[0]).Err? {
      k := 0;
    } else {
      var rest := FirstComplaint(parts[1..], fields[1..]);
      k := rest + 1;
      forall j | 0 <= j < k ensures FieldValues(parts[j], fields[j]).Ok? {
        if 0 < j { assert parts[j] == parts[1..][j - 1] && fields[j] == fields[1..][j - 1]; }
      }
    }
  }

  // From the text to the minutes it names

  lemma AliasIsOneWord(raw: string)
    requires Alias(raw) != raw
    ensures Words(raw) == [raw]
  {
    assert raw != [] && forall i | 0 <= i < |raw| :: !IsSpace(raw[i]);
    assert raw + [] == raw;
    WordsUnfold(raw, []);
  }

  /** Spaces around and between the fields, and capitals, do not matter. */
  lemma FieldsReadAre(expression: string)
    requires |Words(expression)| == 5
    ensures FieldsRead(expression) == LowerAll(Words(expression)) && Strip(expression) != []
  {
    hide Words, Strip, Lower, Alias;
    var raw := Lower(Strip(expression));
    WordsOfStrip(expression);
    WordsOfLower(Strip(expression));
    if Strip(expression) == [] {
      NoWords(Strip(expression));
    }
    if Alias(raw) != raw {
      AliasIsOneWord(raw);
    }
  }

  /** What is written in each field. */
  datatype Written = Written(minutes: seq<Term>, hours: seq<Term>, days: seq<Term>, months: seq<Term>, weekdays: seq<Term>)

  predicate ValidField(terms: seq<Term>, field: Field) {
    terms != [] && forall t | t in terms :: ValidTerm(t, field)
  }

  predicate ValidWritten(w: Written) {
    ValidField(w.minutes, Minute) && ValidField(w.hours, Hour) && ValidField(w.days, Day)
    && ValidField(w.months, Month) && ValidField(w.weekdays, Weekday)
  }

  function Texts(w: Written): seq<string>
    requires ValidWritten(w)
  {
    [FieldText(w.minutes, Minute), FieldText(w.hours, Hour), FieldText(w.days, Day),
     FieldText(w.months, Month), FieldText(w.weekdays, Weekday)]
  }

  const STAR := [Term(All, None)]

  lemma TermIsStar(t: Term, field: Field)
    requires ValidTerm(t, field)
    ensures TermText(t, field) == "*" <==> t == Term(All, None)
  {
    match t.span
    case All =>
    case From(a) =>
      TokenIsPlain(a, field);
      PlainIsWhole(TokenText(a, field));
      assert t.step.Some? ==> |TermText(t, field)| > 1;
    case Between(a, b) =>
      TokenIsPlain(a, field);
      TokenIsPlain(b, field);
      assert |TermText(t, field)| > 1;
  }

  lemma StarText(terms: seq<Term>, field: Field)
    requires ValidField(terms, field)
    ensures FieldText(terms, field) == "*" <==> terms == STAR
  {
    assert ValidTerm(terms[0], field);
    TermIsStar(terms[0], field);
    SpanTextIsPlain(terms[0].span, field);
    hide TermText, ValidTerm;
  }

  lemma FieldsAreOk(parts: seq<string>)
    requires |parts| == 5 && forall k | 0 <= k < 5 :: FieldValues(parts[k], FIELDS[k]).Ok?
    ensures ParseParts(parts).Ok?
  {
    if FieldsOf(parts, FIELDS).Err? {
      var k := FirstComplaint(parts, FIELDS);
    }
  }

  lemma NamedIs(terms: seq<Term>, field: Field, x: nat)
    requires ValidField(terms, field)
    ensures FieldValues(FieldText(terms, field), field).Ok?
    ensures x in Named(FieldText(terms, field), field) <==> SomeNames(terms, field, x)
  {
    FieldMeans(terms, field);
    hide FieldValues, FieldText, SomeNames;
  }

  lemma TextsAreOk(w: Written)
    requires ValidWritten(w)
    ensures ParseParts(Texts(w)).Ok?
  {
    hide FieldText, FieldValues, ParseParts, ValidField, SomeNames, Named;
    NamedIs(w.minutes, Minute, 0);
    NamedIs(w.hours, Hour, 0);
    NamedIs(w.days, Day, 0);
    NamedIs(w.months, Month, 0);
    NamedIs(w.weekdays, Weekday, 0);
    FieldsAreOk(Texts(w));
  }

  /** An expression of five written fields, with any spaces and capitals, is accepted, and names
      exactly the minutes its writer meant. */
  lemma ExpressionMeans(expression: string, w: Written, t: nat)
    requires ValidWritten(w) && |Words(expression)| == 5 && LowerAll(Words(expression)) == Texts(w)
    ensures Parsed(expression).Ok?
    ensures var n := Calendar.DayOf(t);
            var day, weekday := SomeNames(w.days, Day, Calendar.DateOf(n).day), SomeNames(w.weekdays, Weekday, Calendar.Weekday(n));
            Parsed(expression).value.Matches(t) <==>
              && SomeNames(w.minutes, Minute, Calendar.MinuteOf(t)) && SomeNames(w.hours, Hour, Calendar.HourOf(t))
              && SomeNames(w.months, Month, Calendar.DateOf(n).month)
              && (if w.days == STAR then weekday else if w.weekdays == STAR then day else day || weekday)
  {
    StarText(w.days, Day);
    StarText(w.weekdays, Weekday);
    FieldsReadAre(expression);
    TextsAreOk(w);
    assert Parsed(expression) == ParseParts(Texts(w)) by { hide ParseParts; }
    var date := Calendar.DateOf(Calendar.DayOf(t));
    NamedIs(w.minutes, Minute, Calendar.MinuteOf(t));
    NamedIs(w.hours, Hour, Calendar.HourOf(t));
    NamedIs(w.days, Day, date.day);
    NamedIs(w.months, Month, date.month);
    NamedIs(w.weekdays, Weekday, Calendar.Weekday(Calendar.DayOf(t)));
    AcceptedMeans(expression, t);
    hide FieldText, ValidField, SomeNames, FieldsRead, Parsed, Named, ParseParts;
  }

  // The aliases

  lemma FiveWords(a: string, b: string, c: string, d: string, e: string)
    requires IsWord(a) && IsWord(b) && IsWord(c) && IsWord(d) && IsWord(e)
    ensures Words(a + " " + (b + " " + (c + " " + (d + " " + e)))) == [a, b, c, d, e]
  {
    var words := [a, b, c, d, e];
    WordsOfJoin(words);
    assert JoinWords(words[4..]) == e;
    assert JoinWords(words[3..]) == d + " " + e;
    assert JoinWords(words[2..]) == c + " " + (d + " " + e);
    assert JoinWords(words[1..]) == b + " " + (c + " " + (d + " " + e));
  }

  lemma OneNumber(n: nat, field: Field, x: nat)
    requires n < 2 && field.Low() <= n
    ensures FieldValues(Decimal(n), field).Ok?
    ensures x in Named(Decimal(n), field) <==> x == n
  {
    var terms := [Term(From(Number(n)), None)];
    NamedIs(terms, field, x);
    assert TermText(terms[0], field) == Decimal(n) + "" == Decimal(n);
    assert FieldText(terms, field) == Decimal(n);
    assert SomeNames(terms, field, x) <==> TermNames(terms[0], field, x);
    hide FieldValues;
  }

  /** A field of an alias: everything, 0 or 1. */
  predicate Says(part: string, x: nat) {
    part == "*" || (part == "0" && x == 0) || (part == "1" && x == 1)
  }

  /** What an alias stands for, after its minute 0. */
  datatype Fields = Fields(hour: string, day: string, month: string, weekday: string)

  predicate IsFields(f: Fields) {
    (f.hour == "*" || f.hour == "0") && (f.day == "*" || f.day == "1") && (f.month == "*" || f.month == "1")
    && (f.weekday == "*" || (f.weekday == "0" && f.day == "*"))
  }

  function FieldsText(f: Fields): string {
    "0" + " " + (f.hour + " " + (f.day + " " + (f.month + " " + f.weekday)))
  }

  lemma WordsOfFields(f: Fields)
    requires IsFields(f)
    ensures Words(FieldsText(f)) == ["0", f.hour, f.day, f.month, f.weekday]
  {
    FiveWords("0", f.hour, f.day, f.month, f.weekday);
  }

  lemma SaysNamed(part: string, field: Field, x: nat)
    requires part == "*" || (part == "0" && field.Low() == 0) || part == "1"
    requires field.Low() <= x <= field.High()
    ensures FieldValues(part, field).Ok?
    ensures x in Named(part, field) <==> Says(part, x)
  {
    if part == "*" {
      StarNames(field, x);
      StarIsEverything(field);
    } else if part == "0" {
      assert Decimal(0) == "0";
      OneNumber(0, field, x);
    } else {
      assert Decimal(1) == "1";
      OneNumber(1, field, x);
    }
    hide FieldValues, Named;
  }

  predicate FieldsSay(f: Fields, t: nat) {
    var n := Calendar.DayOf(t);
    && Calendar.MinuteOf(t) == 0 && Says(f.hour, Calendar.HourOf(t)) && Says(f.day, Calendar.DateOf(n).day)
    && Says(f.month, Calendar.DateOf(n).month) && Says(f.weekday, Calendar.Weekday(n))
  }

  lemma FieldsMean(expression: string, f: Fields, t: nat)
    requires FieldsRead(expression) == ["0", f.hour, f.day, f.month, f.weekday] && Strip(expression) != [] && IsFields(f)
    ensures Parsed(expression).Ok? && (Parsed(expression).value.Matches(t) <==> FieldsSay(f, t))
  {
    var n := Calendar.DayOf(t);
    Calendar.WeekdaysFollow(n);
    hide FieldValues, Named, Words, Alias, Lower, Strip, Says, Calendar.DateOf, Calendar.DayOf, Calendar.Weekday;
    SaysNamed("0", Minute, Calendar.MinuteOf(t));
    SaysNamed(f.hour, Hour, Calendar.HourOf(t));
    SaysNamed(f.day, Day, Calendar.DateOf(n).day);
    SaysNamed(f.month, Month, Calendar.DateOf(n).month);
    SaysNamed(f.weekday, Weekday, Calendar.Weekday(n));
    FieldsAreOk(FieldsRead(expression));
    AcceptedMeans(expression, t);
    StarSays(Calendar.MinuteOf(t), Calendar.DateOf(n).day, Calendar.Weekday(n));
  }

  lemma StarSays(minute: nat, day: nat, weekday: nat)
    ensures Says("0", minute) <==> minute == 0
    ensures Says("*", day) && Says("*", weekday)
  {
  }

  /** The five fields an alias stands for. */
  function AliasFields(alias: string): (f: Fields)
    ensures IsFields(f)
  {
    if alias == "@yearly" || alias == "@annually" then Fields("0", "1", "1", "*")
    else if alias == "@monthly" then Fields("0", "1", "*", "*")
    else if alias == "@weekly" then Fields("0", "*", "*", "0")
    else if alias == "@hourly" then Fields("*", "*", "*", "*")
    else Fields("0", "*", "*", "*")
  }

  lemma FieldsTexts()
    ensures FieldsText(Fields("0", "1", "1", "*")) == "0 0 1 1 *" && FieldsText(Fields("0", "1", "*", "*")) == "0 0 1 * *"
    ensures FieldsText(Fields("0", "*", "*", "0")) == "0 0 * * 0" && FieldsText(Fields("*", "*", "*", "*")) == "0 * * * *"
    ensures FieldsText(Fields("0", "*", "*", "*")) == "0 0 * * *"
  {
  }

  lemma AliasIsFields(alias: string)
    requires IsAlias(alias)
    ensures Alias(alias) == FieldsText(AliasFields(alias)) && alias != []
  {
    FieldsTexts();
    hide FieldsText;
  }

  predicate IsAlias(raw: string) {
    raw == "@yearly" || raw == "@annually" || raw == "@monthly" || raw == "@weekly" || raw == "@daily"
    || raw == "@midnight" || raw == "@hourly"
  }

  /** Each alias, with any capitals and spaces around it, names what its word says: the first minute
      of 1 January, of the first of a month, of a Sunday, of a day, or of an hour. */
  lemma AliasMeans(expression: string, t: nat)
    requires IsAlias(Lower(Strip(expression)))
    ensures Parsed(expression).Ok?
    ensures var alias, n := Lower(Strip(expression)), Calendar.DayOf(t);
            var midnight, date := Calendar.HourOf(t) == 0 && Calendar.MinuteOf(t) == 0, Calendar.DateOf(n);
            Parsed(expression).value.Matches(t) <==>
              if alias == "@yearly" || alias == "@annually" then midnight && date.month == 1 && date.day == 1
              else if alias == "@monthly" then midnight && date.day == 1
              else if alias == "@weekly" then midnight && Calendar.Weekday(n) == 0
              else if alias == "@hourly" then Calendar.MinuteOf(t) == 0
              else midnight
  {
    hide Parsed, Words, Alias, Strip, Lower, IsFields, FieldsText, IsAlias, Calendar.DateOf, Calendar.DayOf, Calendar.Weekday, Calendar.HourOf, Calendar.MinuteOf;
    var f := AliasFields(Lower(Strip(expression)));
    AliasIsFields(Lower(Strip(expression)));
    WordsOfFields(f);
    FieldsMean(expression, f, t);
  }
}
