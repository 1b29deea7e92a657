/** The string operations of Python that the modelled code relies on, for ASCII text. */
module Text {
  /** What `str.isspace` accepts among the ASCII characters. */
  predicate IsSpace(c: char) {
    9 <= c as int <= 13 || 28 <= c as int <= 32
  }

  lemma SpacesAre(c: char)
    ensures IsSpace(c) <==> c in "\t\n\U{0B}\U{0C}\r\U{1C}\U{1D}\U{1E}\U{1F} "
  {
    var spaces := "\t\n\U{0B}\U{0C}\r\U{1C}\U{1D}\U{1E}\U{1F} ";
    assert forall i | 0 <= i < |spaces| :: IsSpace(spaces[i]);
    if IsSpace(c) {
      assert c == spaces[if c as int <= 13 then c as int - 9 else c as int - 23];
    }
  }

  predicate IsDigit(c: char) {
    '0' <= c <= '9'
  }

  predicate IsNameStart(c: char) {
    'A' <= c <= 'Z' || 'a' <= c <= 'z' || c == '_'
  }

  /** Letters, digits and underscores, not starting with a digit. */
  predicate IsName(s: string) {
    s != [] && IsNameStart(s[0]) && forall i | 0 <= i < |s| :: IsNameStart(s[i]) || IsDigit(s[i])
  }

  function LowerChar(c: char): char {
    if 'A' <= c <= 'Z' then (c as int + 32) as char else c
  }

  function Lower(s: string): (r: string)
    ensures |r| == |s| && forall i | 0 <= i < |s| :: r[i] == LowerChar(s[i])
  {
    if s == [] then [] else [LowerChar(s[0])] + Lower(s[1..])
  }

  // Trimming

  function StripLeft(s: string): string {
    if s != [] && IsSpace(s[0]) then StripLeft(s[1..]) else s
  }

  function StripRight(s: string): string {
    if s != [] && IsSpace(s[|s| - 1]) then StripRight(s[..|s| - 1]) else s
  }

  function Strip(s: string): string {
    StripRight(StripLeft(s))
  }

  /** No space at either end. */
  predicate Trimmed(s: string) {
    s == [] || (!IsSpace(s[0]) && !IsSpace(s[|s| - 1]))
  }

  lemma {:induction false} StripLeftParts(s: string)
    ensures exists k: nat :: k <= |s| && StripLeft(s) == s[k..] && forall i | 0 <= i < k :: IsSpace(s[i])
    ensures StripLeft(s) == [] || !IsSpace(StripLeft(s)[0])
  {
    if s != [] && IsSpace(s[0]) {
      StripLeftParts(s[1..]);
      var k: nat :| k <= |s[1..]| && StripLeft(s[1..]) == s[1..][k..] && forall i | 0 <= i < k :: IsSpace(s[1..][i]);
      assert s[1..][k..] == s[k + 1..];
      forall i | 0 <= i < k + 1 ensures IsSpace(s[i]) {
        if 0 < i { assert s[i] == s[1..][i - 1]; }
      }
    } else {
      assert s[0..] == s;
    }
  }

  lemma {:induction false} StripRightParts(s: string)
    ensures exists k: nat :: k <= |s| && StripRight(s) == s[..k] && forall i | k <= i < |s| :: IsSpace(s[i])
    ensures StripRight(s) == [] || !IsSpace(StripRight(s)[|StripRight(s)| - 1])
  {
    if s != [] && IsSpace(s[|s| - 1]) {
      var t := s[..|s| - 1];
      StripRightParts(t);
      var k: nat :| k <= |t| && StripRight(t) == t[..k] && forall i | k <= i < |t| :: IsSpace(t[i]);
      assert t[..k] == s[..k];
      forall i | k <= i < |s| ensures IsSpace(s[i]) {
        if i < |s| - 1 { assert s[i] == t[i]; }
      }
    } else {
      assert s[..|s|] == s;
    }
  }

  /** Trimming leaves a middle piece of the text, with no space at either end. */
  lemma StripTrims(s: string)
    ensures Trimmed(Strip(s))
    ensures exists a: nat, b: nat :: a <= b <= |s| && Strip(s) == s[a..b]
  {
    StripLeftParts(s);
    var t := StripLeft(s);
    var a: nat :| a <= |s| && t == s[a..];
    StripRightParts(t);
    var k: nat :| k <= |t| && StripRight(t) == t[..k];
    assert t[..k] == s[a..a + k];
  }

  lemma StripOfTrimmed(s: string)
    requires Trimmed(s)
    ensures Strip(s) == s
  {
  }

  // Decimal numbers

  function Digit(d: nat): char
    requires d < 10
  {
    ('0' as int + d) as char
  }

  function Decimal(n: nat): string {
    if n < 10 then [Digit(n)] else Decimal(n / 10) + [Digit(n % 10)]
  }

  predicate AllDigits(s: string) {
    forall i | 0 <= i < |s| :: IsDigit(s[i])
  }

  function ToNat(s: string): nat
    requires AllDigits(s)
  {
    if s == [] then 0 else 10 * ToNat(s[..|s| - 1]) + (s[|s| - 1] as int - '0' as int)
  }

  /** Reading a printed number gives it back. */
  lemma {:induction false} DecimalReadsBack(n: nat)
    ensures Decimal(n) != [] && AllDigits(Decimal(n)) && ToNat(Decimal(n)) == n
  {
    if 10 <= n {
      DecimalReadsBack(n / 10);
      assert Decimal(n)[..|Decimal(n)| - 1] == Decimal(n / 10);
    } else {
      assert Decimal(n)[..0] == [];
    }
  }

  // Splitting and joining

  /** The length of the longest prefix without a space. */
  function WordLength(s: string): (n: nat)
    ensures n <= |s| && (forall i | 0 <= i < n :: !IsSpace(s[i])) && (n < |s| ==> IsSpace(s[n]))
  {
    if s == [] || IsSpace(s[0]) then 0 else 1 + WordLength(s[1..])
  }

  /** `str.split()`: the runs without spaces. */
  function Words(s: string): seq<string>
    decreases |s|
  {
    if s == [] then []
    else if IsSpace(s[0]) then Words(s[1..])
    else [s[..WordLength(s)]] + Words(s[WordLength(s)..])
  }

  predicate IsWord(s: string) {
    s != [] && forall i | 0 <= i < |s| :: !IsSpace(s[i])
  }

  function JoinWords(words: seq<string>): string {
    if words == [] then []
    else if |words| == 1 then words[0]
    else words[0] + " " + JoinWords(words[1..])
  }

  lemma {:induction false} WordsAreWords(s: string)
    ensures forall i | 0 <= i < |Words(s)| :: IsWord(Words(s)[i])
    ensures forall i, j | 0 <= i < |Words(s)| && 0 <= j < |Words(s)[i]| :: Words(s)[i][j] in s
    decreases |s|
  {
    if s != [] {
      if IsSpace(s[0]) {
        WordsAreWords(s[1..]);
      } else {
        WordsAreWords(s[WordLength(s)..]);
      }
    }
  }

  lemma WordLengthOf(w: string, rest: string)
    requires IsWord(w) && (rest == [] || IsSpace(rest[0]))
    ensures WordLength(w + rest) == |w|
  {
    assert forall i | 0 <= i < |w| :: (w + rest)[i] == w[i];
    assert rest != [] ==> (w + rest)[|w|] == rest[0];
  }

  lemma WordsUnfold(w: string, rest: string)
    requires IsWord(w) && (rest == [] || IsSpace(rest[0]))
    ensures Words(w + rest) == [w] + Words(rest)
    ensures rest != [] ==> Words(rest) == Words(rest[1..])
  {
    WordLengthOf(w, rest);
    assert (w + rest)[..|w|] == w && (w + rest)[|w|..] == rest;
  }

  lemma JoinUnfold(words: seq<string>)
    requires words != []
    ensures |words| == 1 ==> JoinWords(words) == words[0] + []
    ensures |words| > 1 ==> JoinWords(words) == words[0] + (" " + JoinWords(words[1..]))
  {
    if |words| > 1 {
      Regroup(words[0], " ", JoinWords(words[1..]));
    } else {
      Regroup(words[0], [], []);
    }
  }

  lemma Regroup(a: string, b: string, c: string)
    ensures a + b + c == a + (b + c)
    ensures a + [] == a
  {
  }

  /** Splitting joined words gives them back. */
  lemma {:induction false} WordsOfJoin(words: seq<string>)
    requires forall i | 0 <= i < |words| :: IsWord(words[i])
    ensures Words(JoinWords(words)) == words
  {
    if words != [] {
      JoinUnfold(words);
      WordsOfJoin(words[1..]);
      if |words| == 1 {
        WordsUnfold(words[0], []);
      } else {
        var rest := " " + JoinWords(words[1..]);
        WordsUnfold(words[0], rest);
        assert rest[1..] == JoinWords(words[1..]);
      }
      hide Words, JoinWords, IsWord;
      assert words == [words[0]] + words[1..];
    }
  }

  /** The first position of c, or the length of the text. */
  function IndexOf(s: string, c: char): (n: nat)
    ensures n <= |s| && (forall i | 0 <= i < n :: s[i] != c) && (n < |s| ==> s[n] == c)
  {
    if s == [] || s[0] == c then 0 else 1 + IndexOf(s[1..], c)
  }

  lemma IndexOfIn(before: string, c: char, after: string)
    requires c !in before
    ensures IndexOf(before + [c] + after, c) == |before|
  {
    var s := before + [c] + after;
    assert forall i | 0 <= i < |before| :: s[i] == before[i];
    assert s[|before|] == c;
  }

  /** `str.split(c)`: one piece more than there are separators. */
  function SplitOn(s: string, c: char): (pieces: seq<string>)
    ensures pieces != []
    decreases |s|
  {
    var n := IndexOf(s, c);
    if n == |s| then [s] else [s[..n]] + SplitOn(s[n + 1..], c)
  }

  // What trimming, splitting and small letters leave alone

  const CAPITALS := "ABCDEFGHIJKLMNOPQRSTUVWXYZ"
  const SMALL := "abcdefghijklmnopqrstuvwxyz"

  lemma LettersLower(i: nat, c: char)
    requires i < 26
    ensures LowerChar(CAPITALS[i]) == SMALL[i]
    ensures c < 'A' || 'Z' < c ==> LowerChar(c) == c
  {
    assert CAPITALS[i] as int == 'A' as int + i && SMALL[i] as int == 'a' as int + i;
  }

  lemma {:induction false} WordsOfStripLeft(s: string)
    ensures Words(StripLeft(s)) == Words(s)
  {
    if s != [] && IsSpace(s[0]) {
      WordsOfStripLeft(s[1..]);
    }
  }

  lemma {:induction false} NoWords(s: string)
    requires forall i | 0 <= i < |s| :: IsSpace(s[i])
    ensures Words(s) == []
  {
    if s != [] {
      NoWords(s[1..]);
    }
  }

  /** Spaces after a text add no word. */
  lemma {:induction false} WordsBeforeSpaces(s: string, spaces: string)
    requires forall i | 0 <= i < |spaces| :: IsSpace(spaces[i])
    ensures Words(s + spaces) == Words(s)
    decreases |s|
  {
    if s == [] {
      assert s + spaces == spaces;
      NoWords(spaces);
    } else if IsSpace(s[0]) {
      assert (s + spaces)[1..] == s[1..] + spaces;
      WordsBeforeSpaces(s[1..], spaces);
    } else {
      var n := WordLength(s);
      var w, rest := s[..n], s[n..];
      assert s == w + rest && s + spaces == w + (rest + spaces);
      WordsUnfold(w, rest + spaces);
      WordsUnfold(w, rest);
      WordsBeforeSpaces(rest, spaces);
    }
  }

  /** Trimming a text leaves its words. */
  lemma WordsOfStrip(s: string)
    ensures Words(Strip(s)) == Words(s)
  {
    var t := StripLeft(s);
    WordsOfStripLeft(s);
    StripRightParts(t);
    var k: nat :| k <= |t| && StripRight(t) == t[..k] && forall i | k <= i < |t| :: IsSpace(t[i]);
    assert t == t[..k] + t[k..];
    WordsBeforeSpaces(t[..k], t[k..]);
  }

  function LowerAll(words: seq<string>): (r: seq<string>)
    ensures |r| == |words|
  {
    if words == [] then [] else [Lower(words[0])] + LowerAll(words[1..])
  }

  lemma LowerSplits(a: string, b: string)
    ensures Lower(a + b) == Lower(a) + Lower(b)
  {
  }

  /** Capitals do not change how a text is split. */
  lemma {:induction false} WordsOfLower(s: string)
    ensures Words(Lower(s)) == LowerAll(Words(s))
    decreases |s|
  {
    if s != [] {
      if IsSpace(s[0]) {
        WordsOfLower(s[1..]);
      } else {
        var n := WordLength(s);
        var w, rest := s[..n], s[n..];
        assert s == w + rest;
        LowerSplits(w, rest);
        WordsUnfold(w, rest);
        WordsUnfold(Lower(w), Lower(rest));
        WordsOfLower(rest);
      }
    }
  }

  lemma {:induction false} StripLeftPad(pad: string, s: string)
    requires forall i | 0 <= i < |pad| :: IsSpace(pad[i])
    ensures StripLeft(pad + s) == StripLeft(s)
  {
    if pad == [] {
      assert pad + s == s;
    } else {
      assert (pad + s)[1..] == pad[1..] + s;
      StripLeftPad(pad[1..], s);
    }
  }

  lemma {:induction false} StripRightPad(s: string, pad: string)
    requires forall i | 0 <= i < |pad| :: IsSpace(pad[i])
    ensures StripRight(s + pad) == StripRight(s)
    decreases |pad|
  {
    if pad == [] {
      assert s + pad == s;
    } else {
      assert (s + pad)[..|s + pad| - 1] == s + pad[..|pad| - 1];
      StripRightPad(s, pad[..|pad| - 1]);
    }
  }

  lemma {:induction false} StripLeftBefore(s: string, pad: string)
    requires forall i | 0 <= i < |pad| :: IsSpace(pad[i])
    ensures StripLeft(s) != [] ==> StripLeft(s + pad) == StripLeft(s) + pad
    ensures StripLeft(s) == [] ==> StripLeft(s + pad) == []
  {
    if s == [] {
      assert s + pad == pad == pad + [];
      StripLeftPad(pad, []);
    } else if IsSpace(s[0]) {
      assert (s + pad)[1..] == s[1..] + pad;
      StripLeftBefore(s[1..], pad);
    }
  }

  /** Spaces around a text do not change what trimming leaves. */
  lemma StripPad(before: string, s: string, after: string)
    requires forall i | 0 <= i < |before| :: IsSpace(before[i])
    requires forall i | 0 <= i < |after| :: IsSpace(after[i])
    ensures Strip(before + s) == Strip(s) && Strip(s + after) == Strip(s)
  {
    StripLeftPad(before, s);
    StripLeftBefore(s, after);
    if StripLeft(s) != [] {
      StripRightPad(StripLeft(s), after);
    }
  }

  lemma LeftCut(s: string) returns (k: nat)
    ensures k <= |s| && StripLeft(s) == s[k..] && forall i | 0 <= i < k :: IsSpace(s[i])
  {
    StripLeftParts(s);
    k :| k <= |s| && StripLeft(s) == s[k..] && forall i | 0 <= i < k :: IsSpace(s[i]);
  }

  lemma RightCut(s: string) returns (k: nat)
    ensures k <= |s| && StripRight(s) == s[..k] && forall i | k <= i < |s| :: IsSpace(s[i])
  {
    StripRightParts(s);
    k :| k <= |s| && StripRight(s) == s[..k] && forall i | k <= i < |s| :: IsSpace(s[i]);
  }

  /** A text is its trimmed middle with spaces on both sides. */
  lemma StripParts(s: string) returns (before: string, after: string)
    ensures s == before + Strip(s) + after
    ensures (forall i | 0 <= i < |before| :: IsSpace(before[i])) && forall i | 0 <= i < |after| :: IsSpace(after[i])
  {
    hide StripLeft, StripRight, IsSpace;
    var a := LeftCut(s);
    var k := RightCut(s[a..]);
    before, after := s[..a], s[a..][k..];
    assert s[a..] == s[a..][..k] + after;
    assert s == before + s[a..];
    Regroup(before, s[a..][..k], after);
  }

  /** A piece of the text that ends at separators or at the text's ends, and holds none. */
  predicate IsPiece(s: string, c: char, piece: string, a: nat) {
    && a + |piece| <= |s| && s[a..a + |piece|] == piece && c !in piece
    && (a == 0 || s[a - 1] == c) && (a + |piece| == |s| || s[a + |piece|] == c)
  }

  ghost predicate HasPiece(s: string, c: char, piece: string) {
    exists a: nat :: IsPiece(s, c, piece, a)
  }

  /** Splitting a text gives exactly its pieces between separators. */
  lemma {:induction false} PieceIff(s: string, c: char, piece: string)
    ensures piece in SplitOn(s, c) <==> HasPiece(s, c, piece)
    decreases |s|
  {
    var n := IndexOf(s, c);
    hide IsPiece, HasPiece, SplitOn, IndexOf;
    if n == |s| {
      OnlyPiece(s, c, piece);
    } else {
      PieceIff(s[n + 1..], c, piece);
      SplitsAt(s, c, piece, n);
      PiecesAt(s, c, piece, n);
    }
  }

  lemma PiecesAt(s: string, c: char, piece: string, n: nat)
    requires n == IndexOf(s, c) && n < |s|
    ensures HasPiece(s, c, piece) <==> piece == s[..n] || HasPiece(s[n + 1..], c, piece)
  {
    hide IsPiece, IndexOf;
    FirstPiece(s, c, piece, n);
    var rest := s[n + 1..];
    if a: nat :| IsPiece(rest, c, piece, a) {
      LaterPiece(s, c, piece, n, a);
    }
    if a: nat :| IsPiece(s, c, piece, a) {
      if n < a {
        LaterPiece(s, c, piece, n, a - n - 1);
      } else {
        PieceAtStart(s, c, piece, n, a);
      }
    }
  }

  lemma SplitsAt(s: string, c: char, piece: string, n: nat)
    requires n == IndexOf(s, c) && n < |s|
    ensures piece in SplitOn(s, c) <==> piece == s[..n] || piece in SplitOn(s[n + 1..], c)
  {
  }

  lemma OnlyPiece(s: string, c: char, piece: string)
    requires IndexOf(s, c) == |s|
    ensures piece in SplitOn(s, c) <==> HasPiece(s, c, piece)
  {
    assert c !in s;
    if a: nat :| IsPiece(s, c, piece, a) {
      assert a == 0 && piece == s;
    }
    if piece == s {
      assert IsPiece(s, c, piece, 0);
    }
  }

  lemma FirstPiece(s: string, c: char, piece: string, n: nat)
    requires n == IndexOf(s, c) && n < |s|
    ensures piece == s[..n] ==> IsPiece(s, c, piece, 0)
  {
  }

  lemma PieceAtStart(s: string, c: char, piece: string, n: nat, a: nat)
    requires n == IndexOf(s, c) && n < |s| && a <= n && IsPiece(s, c, piece, a)
    ensures piece == s[..n]
  {
    assert forall i | 0 <= i < |piece| :: piece[i] == s[a + i];
  }

  lemma LaterPiece(s: string, c: char, piece: string, n: nat, a: nat)
    requires n < |s| && s[n] == c
    ensures IsPiece(s[n + 1..], c, piece, a) <==> IsPiece(s, c, piece, a + n + 1)
  {
    var rest := s[n + 1..];
    if a + |piece| <= |rest| {
      assert rest[a..a + |piece|] == s[a + n + 1..a + n + 1 + |piece|];
    }
  }
}
