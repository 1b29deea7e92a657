/** Build arguments: parsing the owner's lines, and the text they are stored as. */
module BuildArgs {
  import opened Wrappers
  import opened Text

  const MAX_ARGS: nat := 50
  const MAX_VALUE: nat := 1000

  type Arg = (string, string)

  datatype Refusal =
    | NotAnAssignment(line: nat)
    | BadName(line: nat)
    | LooksLikeSecret(name: string)
    | TooLong(line: nat)
    | TooMany

  // Lines

  /** Where `str.splitlines` cuts ASCII text. */
  predicate IsLineBreak(c: char) {
    10 <= c as int <= 13 || 28 <= c as int <= 30
  }

  lemma LineBreaksAre(c: char)
    ensures IsLineBreak(c) <==> c in "\n\U{0B}\U{0C}\r\U{1C}\U{1D}\U{1E}"
  {
    var breaks := "\n\U{0B}\U{0C}\r\U{1C}\U{1D}\U{1E}";
    assert forall i | 0 <= i < |breaks| :: IsLineBreak(breaks[i]);
    if IsLineBreak(c) {
      assert c == breaks[if c as int <= 13 then c as int - 10 else c as int - 24];
    }
  }

  function LineLength(s: string): (n: nat)
    ensures n <= |s| && (forall i | 0 <= i < n :: !IsLineBreak(s[i])) && (n < |s| ==> IsLineBreak(s[n]))
  {
    if s == [] || IsLineBreak(s[0]) then 0 else 1 + LineLength(s[1..])
  }

  /** `str.splitlines()`: a carriage return and newline together are one break, and the last
      line needs none. */
  function SplitLines(s: string): seq<string>
    decreases |s|
  {
    if s == [] then []
    else
      var n := LineLength(s);
      if n == |s| then [s]
      else [s[..n]] + SplitLines(s[if s[n] == '\r' && n + 1 < |s| && s[n + 1] == '\n' then n + 2 else n + 1..])
  }

  predicate OneLine(s: string) {
    forall i | 0 <= i < |s| :: !IsLineBreak(s[i])
  }

  lemma {:induction false} SplitLinesAreLines(s: string)
    ensures forall line | line in SplitLines(s) :: OneLine(line)
    decreases |s|
  {
    if s != [] {
      var n := LineLength(s);
      if n < |s| {
        SplitLinesAreLines(s[if s[n] == '\r' && n + 1 < |s| && s[n + 1] == '\n' then n + 2 else n + 1..]);
      }
    }
  }

  /** Each break ends the line before it, a carriage return and newline being one break, and what
      follows is split by itself. */
  lemma BreakEndsLine(line: string, c: char, rest: string)
    requires OneLine(line) && IsLineBreak(c)
    ensures SplitLines([]) == [] && (line != [] ==> SplitLines(line) == [line])
    ensures SplitLines(line + [c] + rest) ==
            [line] + SplitLines(if c == '\r' && rest != [] && rest[0] == '\n' then rest[1..] else rest)
  {
    var s := line + [c] + rest;
    LineLengthIs(line, []);
    assert line + [] == line && s == line + ([c] + rest);
    LineLengthIs(line, [c] + rest);
    var n := |line|;
    assert s[n] == c && s[..n] == line && s[n + 1..] == rest;
    if rest != [] {
      assert s[n + 1] == rest[0] && s[n + 2..] == rest[1..];
    }
  }

  lemma {:induction false} LineLengthIs(line: string, rest: string)
    requires OneLine(line) && (rest == [] || IsLineBreak(rest[0]))
    ensures LineLength(line + rest) == |line|
  {
    if line == [] {
      assert line + rest == rest;
    } else {
      assert (line + rest)[1..] == line[1..] + rest;
      LineLengthIs(line[1..], rest);
    }
  }

  // Names

  predicate IsArgName(s: string) {
    IsName(s) && |s| <= 128
  }

  function UpperChar(c: char): char {
    if 'a' <= c <= 'z' then (c as int - 32) as char else c
  }

  function Upper(s: string): string {
    if s == [] then [] else [UpperChar(s[0])] + Upper(s[1..])
  }

  predicate IsAt(s: string, part: string, i: nat) {
    i + |part| <= |s| && s[i..i + |part|] == part
  }

  predicate Contains(s: string, part: string) {
    exists i: nat | i <= |s| :: IsAt(s, part, i)
  }

  predicate IsSecretWord(word: string) {
    word in ["PASSWORD", "PASSWD", "SECRET", "TOKEN", "CREDENTIAL", "CREDENTIALS", "PRIVATE"]
  }

  /** A credential by its name: a whole word of it, or a known pair of words anywhere in it. */
  predicate LooksSecret(name: string) {
    var upper := Upper(name);
    || (exists pair | pair in ["API_KEY", "ACCESS_KEY", "SECRET_KEY", "AUTH_KEY", "MASTER_KEY"] :: Contains(upper, pair))
    || (exists word | word in SplitOn(upper, '_') :: IsSecretWord(word))
  }

  // Parsing

  datatype Parsed = Skip | Bad(refusal: Refusal) | Named(name: string, value: string)

  function ParseLine(number: nat, raw: string): Parsed {
    var line := Strip(raw);
    if line == [] || line[0] == '#' then Skip
    else
      var n := IndexOf(line, '=');
      var name := Strip(line[..n]);
      var value := if n == |line| then [] else Strip(line[n + 1..]);
      if n == |line| then Bad(NotAnAssignment(number))
      else if !IsArgName(name) then Bad(BadName(number))
      else if LooksSecret(name) then Bad(LooksLikeSecret(name))
      else if |value| > MAX_VALUE then Bad(TooLong(number))
      else Named(name, value)
  }

  function NameAt(args: seq<Arg>, name: string): (i: nat)
    ensures i <= |args| && (i < |args| ==> args[i].0 == name)
    ensures forall j | 0 <= j < i :: args[j].0 != name
  {
    if args == [] || args[0].0 == name then 0 else 1 + NameAt(args[1..], name)
  }

  /** Assigning to a dictionary: a new name goes last, a known one keeps its place. */
  function Put(args: seq<Arg>, name: string, value: string): seq<Arg> {
    var i := NameAt(args, name);
    if i < |args| then args[i := (name, value)] else args + [(name, value)]
  }

  function ParseLines(lines: seq<string>): Result<seq<Arg>, Refusal> {
    if lines == [] then Ok([])
    else
      var n := |lines| - 1;
      var before := ParseLines(lines[..n]);
      if before.Err? then before
      else
        match ParseLine(n + 1, lines[n])
        case Skip => before
        case Bad(refusal) => Err(refusal)
        case Named(name, value) => Ok(Put(before.value, name, value))
  }

  function ParsedText(text: string): Result<seq<Arg>, Refusal> {
    var args := ParseLines(SplitLines(text));
    if args.Ok? && |args.value| > MAX_ARGS then Err(TooMany) else args
  }

  lemma {:induction false} RefusedForGood(lines: seq<string>, k: nat)
    requires k <= |lines| && ParseLines(lines[..k]).Err?
    ensures ParseLines(lines) == ParseLines(lines[..k])
    decreases |lines|
  {
    hide ParseLine, Put;
    if k < |lines| {
      var n := |lines| - 1;
      assert lines[..n][..k] == lines[..k];
      RefusedForGood(lines[..n], k);
    } else {
      assert lines[..k] == lines;
    }
  }

  method Parse(text: string) returns (r: Result<seq<Arg>, Refusal>)
    ensures r == ParsedText(text)
  {
    var lines := SplitLines(text);
    var args: seq<Arg> := [];
    for i := 0 to |lines|
      invariant ParseLines(lines[..i]) == Ok(args)
    {
      assert lines[..i + 1][..i] == lines[..i];
      var parsed := ParseLine(i + 1, lines[i]);
      match parsed {
        case Skip =>
        case Bad(refusal) =>
          RefusedForGood(lines, i + 1);
          return Err(refusal);
        case Named(name, value) =>
          args := Put(args, name, value);
      }
    }
    assert lines[..|lines|] == lines;
    if |args| > MAX_ARGS {
      return Err(TooMany);
    }
    return Ok(args);
  }

  // What is accepted

  /** What can be stored: a name that is no secret, and a trimmed value on one line. */
  predicate Storable(arg: Arg) {
    && IsArgName(arg.0) && !LooksSecret(arg.0)
    && Trimmed(arg.1) && OneLine(arg.1) && |arg.1| <= MAX_VALUE
  }

  predicate DistinctNames(args: seq<Arg>) {
    forall i, j | 0 <= i < j < |args| :: args[i].0 != args[j].0
  }

  lemma StripOneLine(s: string)
    requires OneLine(s)
    ensures OneLine(Strip(s)) && Trimmed(Strip(s))
  {
    StripTrims(s);
    var a: nat, b: nat :| a <= b <= |s| && Strip(s) == s[a..b];
    assert forall i | 0 <= i < b - a :: s[a..b][i] == s[a + i];
  }

  lemma ParsedLineStorable(number: nat, raw: string)
    requires OneLine(raw)
    ensures var p := ParseLine(number, raw); p.Named? ==> Storable((p.name, p.value))
  {
    var line := Strip(raw);
    StripOneLine(raw);
    var n := IndexOf(line, '=');
    if n < |line| {
      assert OneLine(line[n + 1..]);
      StripOneLine(line[n + 1..]);
    }
    hide Strip, OneLine, Trimmed, LooksSecret, IsArgName, IndexOf;
  }

  lemma PutKeeps(args: seq<Arg>, name: string, value: string)
    requires DistinctNames(args) && (forall arg | arg in args :: Storable(arg)) && Storable((name, value))
    ensures DistinctNames(Put(args, name, value)) && forall arg | arg in Put(args, name, value) :: Storable(arg)
  {
  }

  lemma {:induction false} AcceptedAreStorable(lines: seq<string>)
    requires ParseLines(lines).Ok? && forall line | line in lines :: OneLine(line)
    ensures DistinctNames(ParseLines(lines).value) && forall arg | arg in ParseLines(lines).value :: Storable(arg)
  {
    if lines != [] {
      var n := |lines| - 1;
      AcceptedAreStorable(lines[..n]);
      assert lines[n] in lines;
      ParsedLineStorable(n + 1, lines[n]);
      var p := ParseLine(n + 1, lines[n]);
      if p.Named? {
        PutKeeps(ParseLines(lines[..n]).value, p.name, p.value);
      }
    }
  }

  /** The last line that names the argument, among the first `n`. */
  predicate IsLastFor(lines: seq<string>, name: string, value: string, k: nat) {
    && k < |lines| && ParseLine(k + 1, lines[k]) == Named(name, value)
    && forall j | k < j < |lines| :: !(ParseLine(j + 1, lines[j]).Named? && ParseLine(j + 1, lines[j]).name == name)
  }

  ghost predicate GivenLast(lines: seq<string>, name: string, value: string) {
    exists k: nat :: IsLastFor(lines, name, value, k)
  }

  lemma {:induction false} NamesAreDistinct(lines: seq<string>)
    requires ParseLines(lines).Ok?
    ensures DistinctNames(ParseLines(lines).value)
  {
    if lines != [] {
      NamesAreDistinct(lines[..|lines| - 1]);
    }
  }

  lemma PutHas(args: seq<Arg>, name: string, value: string, arg: Arg)
    requires DistinctNames(args)
    ensures arg in Put(args, name, value) <==> arg == (name, value) || (arg in args && arg.0 != name)
  {
    var at, put := NameAt(args, name), Put(args, name, value);
    assert put[at] == (name, value);
    if arg in args {
      var j :| 0 <= j < |args| && args[j] == arg;
      assert j != at ==> put[j] == arg;
    }
  }

  /** A line more leaves what other names were given last. */
  lemma LastForOther(lines: seq<string>, name: string, value: string)
    requires lines != []
    requires var p := ParseLine(|lines|, lines[|lines| - 1]); !(p.Named? && p.name == name)
    ensures GivenLast(lines, name, value) <==> GivenLast(lines[..|lines| - 1], name, value)
  {
    var n := |lines| - 1;
    hide ParseLine;
    if k: nat :| IsLastFor(lines[..n], name, value, k) {
      assert lines[..n][k] == lines[k];
      assert IsLastFor(lines, name, value, k);
    }
    if k: nat :| IsLastFor(lines, name, value, k) {
      assert k < n && lines[..n][k] == lines[k];
      assert IsLastFor(lines[..n], name, value, k);
    }
  }

  /** The mapping holds exactly the names given, each with the value of its last line. */
  lemma {:induction false} LastValueWins(lines: seq<string>, name: string, value: string)
    requires ParseLines(lines).Ok?
    ensures (name, value) in ParseLines(lines).value <==> GivenLast(lines, name, value)
  {
    if lines != [] {
      var n := |lines| - 1;
      NamesAreDistinct(lines[..n]);
      var p := ParseLine(n + 1, lines[n]);
      if p.Named? {
        PutHas(ParseLines(lines[..n]).value, p.name, p.value, (name, value));
      }
      hide ParseLine;
      if p.Named? && p.name == name {
        assert p.value == value ==> IsLastFor(lines, name, value, n);
      } else {
        LastValueWins(lines[..n], name, value);
        LastForOther(lines, name, value);
      }
    }
  }

  /** Names stay in the order they were first given: a line more never moves one. */
  lemma OrderIsKept(lines: seq<string>, line: string)
    requires ParseLines(lines + [line]).Ok?
    ensures ParseLines(lines).Ok? && |ParseLines(lines).value| <= |ParseLines(lines + [line]).value|
    ensures forall i | 0 <= i < |ParseLines(lines).value| ::
              ParseLines(lines + [line]).value[i].0 == ParseLines(lines).value[i].0
  {
    assert (lines + [line])[..|lines|] == lines;
  }

  // The stored text

  function Line(arg: Arg): string {
    arg.0 + "=" + arg.1
  }

  function ToText(args: seq<Arg>): string {
    if args == [] then [] else Line(args[0]) + "\n" + ToText(args[1..])
  }

  function LinesOf(args: seq<Arg>): (lines: seq<string>)
    ensures |lines| == |args| && forall i | 0 <= i < |lines| :: lines[i] == Line(args[i])
  {
    seq(|args|, i requires 0 <= i < |args| => Line(args[i]))
  }

  lemma LineLengthOf(line: string, rest: string)
    requires OneLine(line)
    ensures LineLength(line + ['\n'] + rest) == |line|
  {
    var s := line + ['\n'] + rest;
    assert forall i | 0 <= i < |line| :: s[i] == line[i];
    assert s[|line|] == '\n';
  }

  lemma StorableOneLine(arg: Arg)
    requires Storable(arg)
    ensures OneLine(Line(arg))
  {
    hide LooksSecret;
  }

  lemma StorableLine(number: nat, arg: Arg)
    requires Storable(arg)
    ensures ParseLine(number, Line(arg)) == Named(arg.0, arg.1)
  {
    var line := Line(arg);
    assert '=' !in arg.0;
    assert line[0] == arg.0[0] && line[|line| - 1] == if arg.1 == [] then '=' else arg.1[|arg.1| - 1];
    StripOfTrimmed(line);
    assert line == arg.0 + ['='] + arg.1;
    IndexOfIn(arg.0, '=', arg.1);
    assert line[..|arg.0|] == arg.0 && line[|arg.0| + 1..] == arg.1;
    StripOfTrimmed(arg.0);
    StripOfTrimmed(arg.1);
    hide LooksSecret, Strip, IndexOf;
  }

  lemma {:induction false} SplitOfText(args: seq<Arg>)
    requires forall arg | arg in args :: Storable(arg)
    ensures SplitLines(ToText(args)) == LinesOf(args)
  {
    hide LooksSecret, IsArgName, Trimmed, LineLength, Storable;
    if args != [] {
      var line, rest := Line(args[0]), ToText(args[1..]);
      StorableOneLine(args[0]);
      SplitOfText(args[1..]);
      assert ToText(args) == line + ['\n'] + rest;
      LineLengthOf(line, rest);
      assert (line + ['\n'] + rest)[..|line|] == line && (line + ['\n'] + rest)[|line| + 1..] == rest;
      assert LinesOf(args) == [line] + LinesOf(args[1..]);
    }
  }

  lemma {:induction false} LinesParseBack(args: seq<Arg>)
    requires DistinctNames(args) && forall arg | arg in args :: Storable(arg)
    ensures ParseLines(LinesOf(args)) == Ok(args)
  {
    hide ParseLine, Storable, NameAt;
    if args != [] {
      var n := |args| - 1;
      var before, last := args[..n], args[n];
      LinesParseBack(before);
      assert LinesOf(args)[..n] == LinesOf(before);
      StorableLine(n + 1, last);
      assert Put(before, last.0, last.1) == before + [last] == args;
    }
  }

  /** What was accepted once is accepted again from its stored text, as the same names and
      values in the same order, and is stored again as the same text. */
  lemma TextParsesBack(text: string)
    requires ParsedText(text).Ok?
    ensures ParsedText(ToText(ParsedText(text).value)) == ParsedText(text)
    ensures forall arg | arg in ParsedText(text).value :: Storable(arg)
  {
    var args := ParsedText(text).value;
    SplitLinesAreLines(text);
    AcceptedAreStorable(SplitLines(text));
    SplitOfText(args);
    LinesParseBack(args);
  }

  /** Every list of storable arguments with distinct names, up to the limit, is what some text
      parses to, so nothing else restricts what can be stored. */
  lemma StorableIff(args: seq<Arg>)
    ensures (exists text :: ParsedText(text) == Ok(args)) <==>
            && |args| <= 50 && (forall i, j | 0 <= i < j < |args| :: args[i].0 != args[j].0)
            && forall arg | arg in args ::
                 && IsName(arg.0) && |arg.0| <= 128 && !LooksSecret(arg.0)
                 && Trimmed(arg.1) && OneLine(arg.1) && |arg.1| <= 1000
  {
    if text :| ParsedText(text) == Ok(args) {
      SplitLinesAreLines(text);
      AcceptedAreStorable(SplitLines(text));
    }
    if |args| <= MAX_ARGS && DistinctNames(args) && forall arg | arg in args :: Storable(arg) {
      SplitOfText(args);
      LinesParseBack(args);
      assert ParsedText(ToText(args)) == Ok(args);
    }
  }

  // What a line says, and what looks like a secret

  lemma UpperLetter(k: nat, c: char)
    requires k < 26
    ensures UpperChar(SMALL[k]) == CAPITALS[k]
    ensures c < 'a' || 'z' < c ==> UpperChar(c) == c
  {
    assert SMALL[k] as int == 'a' as int + k && CAPITALS[k] as int == 'A' as int + k;
  }

  /** Capitals are taken letter by letter. */
  lemma {:induction false} UpperAt(s: string, i: nat)
    requires i < |s|
    ensures |Upper(s)| == |s| && Upper(s)[i] == UpperChar(s[i])
    decreases |s|
  {
    hide UpperChar;
    if |s| > 1 {
      UpperAt(s[1..], if 0 < i then i - 1 else 0);
    }
  }

  /** The words of a credential. */
  const SECRET_WORDS := ["PASSWORD", "PASSWD", "SECRET", "TOKEN", "CREDENTIAL", "CREDENTIALS", "PRIVATE"]
  const SECRET_PAIRS := ["API_KEY", "ACCESS_KEY", "SECRET_KEY", "AUTH_KEY", "MASTER_KEY"]

  /** One of the pairs stands somewhere in it. */
  ghost predicate HasSecretPair(upper: string) {
    exists pair, a: nat :: pair in SECRET_PAIRS && IsAt(upper, pair, a)
  }

  /** One of the words stands in it, between underscores or its ends. */
  ghost predicate HasSecretWord(upper: string) {
    exists word, a: nat :: word in SECRET_WORDS && IsPiece(upper, '_', word, a)
  }

  /** A name is refused as a secret exactly when, in capitals, it has one of these pairs or words. */
  lemma SecretIff(name: string)
    ensures LooksSecret(name) <==> HasSecretPair(Upper(name)) || HasSecretWord(Upper(name))
  {
    PairIff(Upper(name));
    WordIff(Upper(name));
    hide Upper, HasSecretPair, HasSecretWord, Contains, IsSecretWord, SplitOn;
  }

  lemma PairIff(upper: string)
    ensures (exists pair | pair in ["API_KEY", "ACCESS_KEY", "SECRET_KEY", "AUTH_KEY", "MASTER_KEY"] :: Contains(upper, pair)) <==>
            HasSecretPair(upper)
  {
    if pair, a: nat :| pair in SECRET_PAIRS && IsAt(upper, pair, a) {
      assert Contains(upper, pair);
    }
    hide IsAt;
  }

  lemma WordIff(upper: string)
    ensures (exists word | word in SplitOn(upper, '_') :: IsSecretWord(word)) <==> HasSecretWord(upper)
  {
    hide IsPiece, SplitOn;
    if word :| word in SplitOn(upper, '_') && IsSecretWord(word) {
      PieceIff(upper, '_', word);
      assert word in SECRET_WORDS;
    }
    if word, a: nat :| word in SECRET_WORDS && IsPiece(upper, '_', word, a) {
      assert HasPiece(upper, '_', word);
      PieceIff(upper, '_', word);
      assert IsSecretWord(word);
    }
  }

  predicate IsBlank(s: string) {
    forall i | 0 <= i < |s| :: IsSpace(s[i])
  }

  /** A `#` is the first thing on it. */
  predicate IsComment(raw: string) {
    exists i | 0 <= i < |raw| :: raw[i] == '#' && IsBlank(raw[..i])
  }

  lemma EqualsAt(before: string, line: string, after: string)
    requires IsBlank(before) && IsBlank(after)
    ensures IndexOf(before + line + after, '=') ==
            if '=' in line then |before| + IndexOf(line, '=') else |before + line + after|
  {
    var raw, n := before + line + after, IndexOf(before + line + after, '=');
    assert forall i | 0 <= i < |before| :: raw[i] == before[i] && raw[i] != '=';
    assert forall i | 0 <= i < |line| :: raw[|before| + i] == line[i];
    assert forall i | 0 <= i < |after| :: raw[|before| + |line| + i] == after[i] && after[i] != '=';
    hide IsBlank, IsSpace, IndexOf;
    if '=' in line {
      var m := IndexOf(line, '=');
      assert raw[|before| + m] == '=';
      assert n <= |before| + m;
      assert |before| <= n ==> raw[n] == line[n - |before|];
    }
  }

  lemma StripBlanks(before: string, a: string, b: string, after: string)
    requires IsBlank(before) && IsBlank(after)
    ensures Strip(before + a) == Strip(a) && Strip(b + after) == Strip(b)
  {
    StripPad(before, a, []);
    StripPad([], b, after);
    hide Strip;
  }

  lemma HalvesOf(before: string, line: string, after: string)
    requires IsBlank(before) && IsBlank(after) && '=' in line
    ensures var raw, n, m := before + line + after, IndexOf(before + line + after, '='), IndexOf(line, '=');
            n < |raw| && m < |line| && Strip(raw[..n]) == Strip(line[..m]) && Strip(raw[n + 1..]) == Strip(line[m + 1..])
  {
    hide IsBlank, Strip, IndexOf;
    EqualsAt(before, line, after);
    var raw, m := before + line + after, IndexOf(line, '=');
    var n := |before| + m;
    StripBlanks(before, line[..m], line[m + 1..], after);
    assert raw[..n] == before + line[..m] && raw[n + 1..] == line[m + 1..] + after;
  }

  /** What a line gives, read from the line as it stands: blank lines and comments nothing, any other
      its name and value on both sides of the first `=`, each trimmed, or the first complaint. */
  lemma LineMeans(number: nat, raw: string)
    ensures var n := IndexOf(raw, '=');
            var name := Strip(raw[..n]);
            ParseLine(number, raw) ==
              if IsBlank(raw) then Skip
              else if IsComment(raw) then Skip
              else if n == |raw| then Bad(NotAnAssignment(number))
              else if !IsName(name) || |name| > 128 then Bad(BadName(number))
              else if LooksSecret(name) then Bad(LooksLikeSecret(name))
              else if |Strip(raw[n + 1..])| > 1000 then Bad(TooLong(number))
              else Named(name, Strip(raw[n + 1..]))
  {
    hide Strip, IsBlank, IsComment, LooksSecret, IsName, IndexOf, Trimmed, IsSpace;
    var before, after := BlankParts(raw);
    var line := Strip(raw);
    StripTrims(raw);
    CommentIff(before, line, after);
    EqualsAt(before, line, after);
    if '=' in line {
      HalvesOf(before, line, after);
    }
    assert IndexOf(line, '=') == |line| <==> '=' !in line;
  }

  lemma BlankParts(raw: string) returns (before: string, after: string)
    ensures raw == before + Strip(raw) + after && IsBlank(before) && IsBlank(after)
  {
    before, after := StripParts(raw);
  }

  lemma CommentIff(before: string, line: string, after: string)
    requires IsBlank(before) && IsBlank(after) && Trimmed(line)
    ensures var raw := before + line + after;
            && (IsBlank(raw) <==> line == [])
            && (IsComment(raw) <==> line != [] && line[0] == '#')
  {
    var raw := before + line + after;
    assert forall i | 0 <= i < |before| :: raw[i] == before[i];
    if line != [] {
      var k := |before|;
      assert raw[k] == line[0];
      assert raw[..k] == before;
      assert forall i | k < i <= |raw| :: raw[..i][k] == line[0] && !IsBlank(raw[..i]);
      assert IsComment(raw) <==> exists i | 0 <= i <= k :: raw[i] == '#' && IsBlank(raw[..i]);
      assert forall i | 0 <= i < k :: raw[i] != '#';
    } else {
      assert raw == before + after;
      assert forall i | 0 <= i < |raw| :: IsSpace(raw[i]);
    }
  }
}
