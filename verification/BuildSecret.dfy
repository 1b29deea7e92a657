/** The variables a build or a container is given: which values win, and the files they are
    written to, as a shell and Docker read them back. */
module BuildSecret {
  import opened Wrappers
  import opened Text

  datatype Target = Production | Preview | All

  datatype Variable = Variable(key: string, target: Target, value: string)

  // Which values win

  predicate Covers(v: Target, target: Target) {
    v == All || v == target
  }

  function Covering(stored: seq<Variable>, target: Target): seq<Variable> {
    if stored == [] then []
    else
      var last := stored[|stored| - 1];
      Covering(stored[..|stored| - 1], target) + if Covers(last.target, target) then [last] else []
  }

  /** Those for every environment, or those that are not, in the order given. */
  function Scoped(vars: seq<Variable>, general: bool): seq<Variable> {
    if vars == [] then []
    else
      var last := vars[|vars| - 1];
      Scoped(vars[..|vars| - 1], general) + if (last.target == All) == general then [last] else []
  }

  /** A stable sort that puts the general values first. */
  function GeneralFirst(vars: seq<Variable>): seq<Variable> {
    Scoped(vars, true) + Scoped(vars, false)
  }

  function Overlaid(base: map<string, string>, vars: seq<Variable>): map<string, string> {
    if vars == [] then base
    else Overlaid(base, vars[..|vars| - 1])[vars[|vars| - 1].key := vars[|vars| - 1].value]
  }

  lemma {:induction false} CoveringAre(stored: seq<Variable>, target: Target, v: Variable)
    ensures v in Covering(stored, target) <==> v in stored && Covers(v.target, target)
  {
    if stored != [] {
      CoveringAre(stored[..|stored| - 1], target, v);
      assert stored == stored[..|stored| - 1] + [stored[|stored| - 1]];
    }
  }

  lemma {:induction false} ScopedAre(vars: seq<Variable>, general: bool, v: Variable)
    ensures v in Scoped(vars, general) <==> v in vars && (v.target == All) == general
  {
    if vars != [] {
      ScopedAre(vars[..|vars| - 1], general, v);
      assert vars == vars[..|vars| - 1] + [vars[|vars| - 1]];
    }
  }

  lemma {:induction false} OverlaidHas(base: map<string, string>, vars: seq<Variable>, key: string)
    ensures key in Overlaid(base, vars) <==> key in base || exists v | v in vars :: v.key == key
    ensures (forall v | v in vars :: v.key != key) ==> (key in base ==> Overlaid(base, vars)[key] == base[key])
    ensures (exists v | v in vars :: v.key == key) ==>
              exists v | v in vars :: v.key == key && key in Overlaid(base, vars) && Overlaid(base, vars)[key] == v.value
  {
    if vars != [] {
      OverlaidHas(base, vars[..|vars| - 1], key);
      assert vars == vars[..|vars| - 1] + [vars[|vars| - 1]];
    }
  }

  lemma {:induction false} OverlaidAppend(base: map<string, string>, a: seq<Variable>, b: seq<Variable>)
    ensures Overlaid(base, a + b) == Overlaid(Overlaid(base, a), b)
  {
    if b == [] {
      assert a + b == a;
    } else {
      OverlaidAppend(base, a, b[..|b| - 1]);
      assert (a + b)[..|a + b| - 1] == a + b[..|b| - 1];
    }
  }

  predicate Is(v: Variable, key: string, target: Target) {
    v.key == key && v.target == target
  }

  /** What a key resolves to: the value stored for this environment, else the one for all, else
      the platform's own. */
  ghost predicate Resolves(injected: map<string, string>, stored: seq<Variable>, target: Target, key: string, found: Option<string>) {
    if exists v | v in stored :: Is(v, key, target) then exists v | v in stored :: Is(v, key, target) && found == Some(v.value)
    else if exists v | v in stored :: Is(v, key, All) then exists v | v in stored :: Is(v, key, All) && found == Some(v.value)
    else found == if key in injected then Some(injected[key]) else None
  }

  function Lookup(m: map<string, string>, key: string): Option<string> {
    if key in m then Some(m[key]) else None
  }

  /** The specific value beats the general one, and both beat the platform's, in whatever order
      the rows were read. */
  lemma SpecificWins(injected: map<string, string>, stored: seq<Variable>, target: Target, key: string)
    requires target != All
    ensures Resolves(injected, stored, target, key,
                     Lookup(Overlaid(injected, GeneralFirst(Covering(stored, target))), key))
  {
    var vars := Covering(stored, target);
    var general, specific := Scoped(vars, true), Scoped(vars, false);
    OverlaidAppend(injected, general, specific);
    OverlaidHas(injected, general, key);
    OverlaidHas(Overlaid(injected, general), specific, key);
    forall v ensures v in specific <==> v in stored && v.target == target
      ensures v in general <==> v in stored && v.target == All
    {
      CoveringAre(stored, target, v);
      ScopedAre(vars, true, v);
      ScopedAre(vars, false, v);
    }
    if exists v | v in stored :: Is(v, key, target) {
      var v :| v in stored && Is(v, key, target);
      assert v in specific;
      var w :| w in specific && w.key == key && Overlaid(injected, GeneralFirst(vars))[key] == w.value;
      assert Is(w, key, target);
    } else {
      forall v | v in specific ensures v.key != key {
        assert !Is(v, key, target);
      }
      if exists v | v in stored :: Is(v, key, All) {
        var v :| v in stored && Is(v, key, All);
        assert v in general;
        var w :| w in general && w.key == key && Overlaid(injected, general)[key] == w.value;
        assert Is(w, key, All);
      } else {
        forall v | v in general ensures v.key != key {
          assert !Is(v, key, All);
        }
      }
    }
  }

  predicate HasLineBreak(value: string) {
    '\n' in value || '\r' in value
  }

  /** The variables one environment sees, split by how they can be delivered. */
  method Collect(injected: map<string, string>, stored: seq<Variable>, target: Target)
      returns (fileSafe: map<string, string>, inline: map<string, string>)
    requires target != All
    ensures fileSafe.Keys !! inline.Keys
    ensures forall key :: Resolves(injected, stored, target, key, Lookup(fileSafe + inline, key))
    ensures forall key | key in fileSafe :: !HasLineBreak(fileSafe[key])
    ensures forall key | key in inline :: HasLineBreak(inline[key])
  {
    var resolved := injected;
    var variables := GeneralFirst(Covering(stored, target));
    for i := 0 to |variables|
      invariant resolved == Overlaid(injected, variables[..i])
    {
      assert variables[..i + 1][..i] == variables[..i];
      resolved := resolved[variables[i].key := variables[i].value];
    }
    assert variables[..|variables|] == variables;
    fileSafe, inline := Split(resolved);
    forall key ensures Resolves(injected, stored, target, key, Lookup(fileSafe + inline, key)) {
      SpecificWins(injected, stored, target, key);
    }
  }

  /** The values of some keys that do, or do not, hold a line break. */
  function Broken(resolved: map<string, string>, keys: set<string>, broken: bool): map<string, string> {
    map key | key in resolved && key in keys && HasLineBreak(resolved[key]) == broken :: resolved[key]
  }

  lemma BrokenOneMore(resolved: map<string, string>, rest: set<string>, key: string)
    requires key in rest && rest <= resolved.Keys
    ensures var done, more := resolved.Keys - rest, resolved.Keys - (rest - {key});
            var breaks := HasLineBreak(resolved[key]);
            && Broken(resolved, more, breaks) == Broken(resolved, done, breaks)[key := resolved[key]]
            && Broken(resolved, more, !breaks) == Broken(resolved, done, !breaks)
  {
  }

  method Split(resolved: map<string, string>) returns (fileSafe: map<string, string>, inline: map<string, string>)
    ensures fileSafe + inline == resolved && fileSafe.Keys !! inline.Keys
    ensures forall key | key in fileSafe :: !HasLineBreak(fileSafe[key])
    ensures forall key | key in inline :: HasLineBreak(inline[key])
  {
    fileSafe, inline := map[], map[];
    var rest := resolved.Keys;
    while rest != {}
      invariant rest <= resolved.Keys
      invariant fileSafe == Broken(resolved, resolved.Keys - rest, false)
      invariant inline == Broken(resolved, resolved.Keys - rest, true)
      decreases |rest|
    {
      hide Broken, HasLineBreak;
      var key :| key in rest;
      var value := resolved[key];
      BrokenOneMore(resolved, rest, key);
      if HasLineBreak(value) {
        inline := inline[key := value];
      } else {
        fileSafe := fileSafe[key := value];
      }
      rest := rest - {key};
    }
    assert resolved.Keys - rest == resolved.Keys;
  }

  // The file a build sources

  function Escape(value: string): string {
    if value == [] then []
    else (if value[0] == '\'' then "'\\''" else [value[0]]) + Escape(value[1..])
  }

  function ShellQuote(value: string): string {
    "'" + Escape(value) + "'"
  }

  function SecretLine(key: string, value: string): string {
    key + "=" + ShellQuote(value)
  }

  /** One line for each key, in the order the keys are listed. */
  function Lines(vars: map<string, string>, keys: seq<string>, line: (string, string) -> string): string
    requires forall key | key in keys :: key in vars
  {
    if keys == [] then [] else line(keys[0], vars[keys[0]]) + "\n" + Lines(vars, keys[1..], line)
  }

  /** The keys of a map, each once. */
  ghost predicate Listing(vars: map<string, string>, keys: seq<string>) {
    && (forall key :: key in keys <==> key in vars)
    && forall i, j | 0 <= i < j < |keys| :: keys[i] != keys[j]
  }

  // How a POSIX shell reads it (Shell Command Language, section 2.2)

  const NUL := '\0'

  /** Outside quotes these end the word or start something other than plain text. */
  predicate IsShellSpecial(c: char) {
    c in " \t\"$`;&|<>()#*?[]{}~!" || c == NUL
  }

  /** The value of the word at the start of the text, and what follows it. In single quotes every
      character stands for itself up to the next single quote; a backslash outside them makes
      the next character stand for itself, or joins two lines. None if the text goes beyond
      these two rules. */
  function ReadWord(s: string): (r: Option<(string, string)>)
    ensures r.Some? ==> |r.value.1| <= |s|
    decreases |s|
  {
    if s == [] || s[0] == '\n' then Some(("", s))
    else if s[0] == '\'' then
      var n := IndexOf(s[1..], '\'');
      if n == |s| - 1 || NUL in s[1..][..n] then None else Before(s[1..][..n], ReadWord(s[n + 2..]))
    else if s[0] == '\\' then
      if |s| == 1 || s[1] == NUL then None
      else if s[1] == '\n' then ReadWord(s[2..])
      else Before([s[1]], ReadWord(s[2..]))
    else if IsShellSpecial(s[0]) then None
    else Before([s[0]], ReadWord(s[1..]))
  }

  function Before(start: string, r: Option<(string, string)>): Option<(string, string)> {
    if r.Some? then Some((start + r.value.0, r.value.1)) else None
  }

  /** The variables a file of assignments sets. */
  function ReadSecret(s: string, vars: map<string, string>): Option<map<string, string>>
    decreases |s|
  {
    if s == [] then Some(vars)
    else if s[0] == '\n' then ReadSecret(s[1..], vars)
    else
      var n := IndexOf(s, '=');
      if n == |s| || !IsName(s[..n]) then None
      else
        var word := ReadWord(s[n + 1..]);
        if word.None? then None else ReadSecret(word.value.1, vars[s[..n] := word.value.0])
  }

  lemma EscapeOne(c: char, rest: string)
    ensures Escape([c] + rest) == (if c == '\'' then "'\\''" else [c]) + Escape(rest)
  {
    assert ([c] + rest)[1..] == rest;
  }

  lemma {:induction false} EscapeUpTo(start: string, rest: string)
    requires '\'' !in start
    ensures Escape(start + rest) == start + Escape(rest)
  {
    hide Escape;
    if start == [] {
      assert start + rest == rest;
    } else {
      var c, more := start[0], start[1..];
      assert start == [c] + more && c in start;
      Regroup([c], more, rest);
      EscapeOne(c, more + rest);
      EscapeUpTo(more, rest);
      Regroup([c], more, Escape(rest));
    }
  }

  /** A single-quoted stretch stands for itself. */
  lemma QuotesRead(start: string, after: string)
    requires '\'' !in start
    ensures ReadWord("'" + start + "'" + after) == if NUL in start then None else Before(start, ReadWord(after))
  {
    var s := "'" + start + "'" + after;
    assert s[1..] == start + ['\''] + after;
    IndexOfIn(start, '\'', after);
    assert s[1..][..|start|] == start && s[|start| + 2..] == after;
  }

  /** An escaped quote stands for a quote. */
  lemma EscapedQuoteReads(after: string)
    ensures ReadWord("\\'" + after) == Before("'", ReadWord(after))
  {
    assert ("\\'" + after)[2..] == after;
  }

  lemma QuoteSplits(start: string, tail: string)
    requires '\'' !in start
    ensures ShellQuote(start + "'" + tail) == "'" + start + "'" + ("\\'" + ShellQuote(tail))
    ensures ShellQuote(start) == "'" + start + "'"
  {
    EscapeUpTo(start, "'" + tail);
    assert start + "'" + tail == start + ("'" + tail);
    assert ("'" + tail)[1..] == tail;
    EscapeUpTo(start, []);
    assert start + [] == start;
  }

  /** A quoted value is read back whole, up to the line's end, whatever quotes, backslashes and
      line breaks it holds; one with a NUL is not. */
  lemma {:induction false} QuotedReadsBack(value: string, rest: string)
    requires rest == [] || rest[0] == '\n'
    ensures ReadWord(ShellQuote(value) + rest) == if NUL in value then None else Some((value, rest))
    decreases |value|
  {
    assert ReadWord(rest) == Some(("", rest));
    hide ReadWord, ShellQuote, Escape, IndexOf;
    var n := IndexOf(value, '\'');
    var start := value[..n];
    assert '\'' !in start;
    if n == |value| {
      assert start == value && value + "" == value;
      QuoteSplits(value, []);
      QuotesRead(value, rest);
    } else {
      var tail := value[n + 1..];
      assert value == start + "'" + tail;
      QuotedUpTo(start, tail, rest);
      QuotedReadsBack(tail, rest);
    }
  }

  lemma RegroupFour(a: string, b: string, c: string, d: string)
    ensures a + (b + c) + d == a + (b + (c + d))
  {
  }

  /** The word up to a quote inside the value, and on from there. */
  lemma QuotedUpTo(start: string, tail: string, rest: string)
    requires '\'' !in start
    ensures ReadWord(ShellQuote(start + "'" + tail) + rest) ==
            if NUL in start then None else Before(start + "'", ReadWord(ShellQuote(tail) + rest))
  {
    QuoteSplits(start, tail);
    hide ReadWord, ShellQuote, Escape;
    var more := ShellQuote(tail) + rest;
    RegroupFour("'" + start + "'", "\\'", ShellQuote(tail), rest);
    QuotesRead(start, "\\'" + more);
    EscapedQuoteReads(more);
    var r := ReadWord(more);
    if r.Some? {
      Regroup(start, "'", r.value.0);
    }
  }

  lemma NameEnds(key: string, rest: string)
    requires IsName(key)
    ensures IndexOf(key + "=" + rest, '=') == |key|
  {
    IndexOfIn(key, '=', rest);
  }

  function Assigned(base: map<string, string>, vars: map<string, string>, keys: seq<string>): map<string, string>
    requires forall key | key in keys :: key in vars
    decreases keys
  {
    if keys == [] then base else Assigned(base[keys[0] := vars[keys[0]]], vars, keys[1..])
  }

  lemma {:induction false} AssignedAre(base: map<string, string>, vars: map<string, string>, keys: seq<string>, key: string)
    requires forall k | k in keys :: k in vars
    ensures Lookup(Assigned(base, vars, keys), key) == if key in keys then Some(vars[key]) else Lookup(base, key)
    decreases keys
  {
    if keys != [] {
      AssignedAre(base[keys[0] := vars[keys[0]]], vars, keys[1..], key);
    }
  }

  lemma {:induction false} LinesRead(vars: map<string, string>, keys: seq<string>, base: map<string, string>)
    requires forall key | key in keys :: key in vars && IsName(key)
    ensures ReadSecret(Lines(vars, keys, SecretLine), base) ==
            if exists key | key in keys :: NUL in vars[key] then None else Some(Assigned(base, vars, keys))
  {
    if keys != [] {
      var key, value := keys[0], vars[keys[0]];
      var rest := "\n" + Lines(vars, keys[1..], SecretLine);
      var s := Lines(vars, keys, SecretLine);
      assert keys == [key] + keys[1..];
      assert s == key + "=" + (ShellQuote(value) + rest);
      NameEnds(key, ShellQuote(value) + rest);
      assert s[..|key|] == key && s[|key| + 1..] == ShellQuote(value) + rest;
      assert s[0] == key[0] && s[0] != '\n';
      QuotedReadsBack(value, rest);
      assert rest[1..] == Lines(vars, keys[1..], SecretLine);
      LinesRead(vars, keys[1..], base[key := value]);
    }
  }

  /** For every map of valid names to values, a shell that reads the written file sets exactly
      that map, in whatever order the lines come, if and only if no value holds a NUL. */
  lemma SecretReadsBackIff(vars: map<string, string>, keys: seq<string>)
    requires Listing(vars, keys) && forall key | key in vars :: IsName(key)
    ensures ReadSecret(Lines(vars, keys, SecretLine), map[]) == Some(vars) <==> forall key | key in vars :: NUL !in vars[key]
  {
    LinesRead(vars, keys, map[]);
    forall key ensures Lookup(Assigned(map[], vars, keys), key) == Lookup(vars, key) {
      AssignedAre(map[], vars, keys, key);
    }
    SameLookups(Assigned(map[], vars, keys), vars);
  }

  lemma SameLookups(a: map<string, string>, b: map<string, string>)
    requires forall key :: Lookup(a, key) == Lookup(b, key)
    ensures a == b
  {
    forall key ensures key in a <==> key in b {
      assert Lookup(a, key) == Lookup(b, key);
    }
    forall key | key in a ensures a[key] == b[key] {
      assert Lookup(a, key) == Lookup(b, key);
    }
  }

  // The file a container is started with

  function PlainLine(key: string, value: string): string {
    key + "=" + value
  }

  /** A line as it is scanned: a carriage return before the newline belongs to the line's end. */
  function Scanned(line: string): string {
    if line != [] && line[|line| - 1] == '\r' then line[..|line| - 1] else line
  }

  /** Docker's reading of an env file: each line is split at its first `=`, and the rest of it is
      the value, quotes and all. */
  function ReadEnvFile(s: string, vars: map<string, string>): map<string, string>
    decreases |s|
  {
    var end := IndexOf(s, '\n');
    var line := Scanned(s[..end]);
    var n := IndexOf(line, '=');
    var more := if n == |line| then vars else vars[line[..n] := line[n + 1..]];
    if end == |s| then more else ReadEnvFile(s[end + 1..], more)
  }

  /** One line of the file, with nothing or a carriage return before its newline. */
  lemma EnvLineRead(key: string, value: string, end: string, rest: string, base: map<string, string>)
    requires IsName(key) && !HasLineBreak(value) && (end == "" || end == "\r")
    ensures ReadEnvFile(key + "=" + value + end + "\n" + rest, base) == ReadEnvFile(rest, base[key := value])
  {
    OnOneLine(key, value, end);
    NameEnds(key, value);
    hide IndexOf, Scanned, IsName, HasLineBreak;
    var line := PlainLine(key, value);
    var s := key + "=" + value + end + "\n" + rest;
    assert s == (line + end) + ['\n'] + rest;
    IndexOfIn(line + end, '\n', rest);
    assert s[..|line + end|] == line + end && s[|line + end| + 1..] == rest;
    LineScanned(line, end);
    assert line[..|key|] == key && line[|key| + 1..] == value;
  }

  lemma OnOneLine(key: string, value: string, end: string)
    requires IsName(key) && !HasLineBreak(value) && (end == "" || end == "\r")
    ensures '\n' !in PlainLine(key, value) + end && '\r' !in PlainLine(key, value)
  {
  }

  lemma LineScanned(line: string, end: string)
    requires '\r' !in line && (end == "" || end == "\r")
    ensures Scanned(line + end) == line
  {
    assert end == "" ==> line + end == line;
    assert end == "\r" ==> (line + end)[..|line|] == line;
  }

  lemma {:induction false} EnvLinesRead(vars: map<string, string>, keys: seq<string>, base: map<string, string>)
    requires forall key | key in keys :: key in vars && IsName(key) && !HasLineBreak(vars[key])
    ensures ReadEnvFile(Lines(vars, keys, PlainLine), base) == Assigned(base, vars, keys)
  {
    if keys != [] {
      var key, value := keys[0], vars[keys[0]];
      var rest := Lines(vars, keys[1..], PlainLine);
      assert Lines(vars, keys, PlainLine) == key + "=" + value + "" + "\n" + rest;
      EnvLineRead(key, value, "", rest, base);
      hide IsName, HasLineBreak, ReadEnvFile;
      EnvLinesRead(vars, keys[1..], base[key := value]);
    } else {
      NothingMore(base);
    }
  }

  /** A value on one line but for a carriage return at its end would lose it, which is why such a
      value is not put into the file. */
  lemma CarriageReturnIsLost(key: string, value: string)
    requires IsName(key) && !HasLineBreak(value)
    ensures HasLineBreak(value + "\r")
    ensures ReadEnvFile(PlainLine(key, value + "\r") + "\n", map[]) == map[key := value]
  {
    assert (value + "\r")[|value|] == '\r';
    assert PlainLine(key, value + "\r") + "\n" == key + "=" + value + "\r" + "\n" + "";
    EnvLineRead(key, value, "\r", "", map[]);
    NothingMore(map[key := value]);
  }

  lemma NothingMore(vars: map<string, string>)
    ensures ReadEnvFile([], vars) == vars
  {
  }

  /** The values that go into the container's file are read back exactly; the split leaves no
      value with a line break among them. */
  lemma EnvFileReadsBack(fileSafe: map<string, string>, keys: seq<string>)
    requires Listing(fileSafe, keys)
    requires forall key | key in fileSafe :: IsName(key) && !HasLineBreak(fileSafe[key])
    ensures ReadEnvFile(Lines(fileSafe, keys, PlainLine), map[]) == fileSafe
  {
    EnvLinesRead(fileSafe, keys, map[]);
    forall key ensures Lookup(Assigned(map[], fileSafe, keys), key) == Lookup(fileSafe, key) {
      AssignedAre(map[], fileSafe, keys, key);
    }
    SameLookups(Assigned(map[], fileSafe, keys), fileSafe);
  }
}
