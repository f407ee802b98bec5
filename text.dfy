/** The parts of Rust's `str` API that the backend relies on, over `seq<char>`
    (a Rust `&str` is a sequence of Unicode scalar values, as a Dafny `string` is). */
module Text {
  import opened Wrappers

  /** `char::is_whitespace`: the Unicode White_Space property. Rust's `trim`,
      `split_whitespace` and the regex class `\s` all use this set. */
  predicate IsWhiteSpace(c: char) {
    c == ' ' || ('\t' <= c <= '\r') || c == '\U{85}' || c == '\U{A0}' || c == '\U{1680}'
    || ('\U{2000}' <= c <= '\U{200A}') || c == '\U{2028}' || c == '\U{2029}'
    || c == '\U{202F}' || c == '\U{205F}' || c == '\U{3000}'
  }

  predicate AllWhiteSpace(s: string) {
    forall k :: 0 <= k < |s| ==> IsWhiteSpace(s[k])
  }

  predicate NoWhiteSpace(s: string) {
    forall k :: 0 <= k < |s| ==> !IsWhiteSpace(s[k])
  }

  /** Number of white-space characters at the front of `s`. */
  function LeadingWhiteSpace(s: string): (n: nat)
    ensures n <= |s| && AllWhiteSpace(s[..n])
    ensures n < |s| ==> !IsWhiteSpace(s[n])
  {
    if s == [] || !IsWhiteSpace(s[0]) then 0
    else
      var n := 1 + LeadingWhiteSpace(s[1..]);
      assert s[..n] == [s[0]] + s[1..][..n - 1];
      n
  }

  /** Number of white-space characters at the back of `s`. */
  function TrailingWhiteSpace(s: string): (n: nat)
    ensures n <= |s| && AllWhiteSpace(s[|s| - n..])
    ensures n < |s| ==> !IsWhiteSpace(s[|s| - n - 1])
  {
    if s == [] || !IsWhiteSpace(s[|s| - 1]) then 0
    else
      var init := s[..|s| - 1];
      var n := 1 + TrailingWhiteSpace(init);
      assert s[|s| - n..] == init[|init| - (n - 1)..] + [s[|s| - 1]];
      n
  }

  /** `str::trim_start` */
  function TrimStart(s: string): (r: string)
    ensures |r| <= |s| && r == s[|s| - |r|..]
    ensures AllWhiteSpace(s[..|s| - |r|])
    ensures r == [] || !IsWhiteSpace(r[0])
  {
    s[LeadingWhiteSpace(s)..]
  }

  /** `str::trim_end` */
  function TrimEnd(s: string): (r: string)
    ensures |r| <= |s| && r == s[..|r|]
    ensures AllWhiteSpace(s[|r|..])
    ensures r == [] || !IsWhiteSpace(r[|r| - 1])
  {
    s[..|s| - TrailingWhiteSpace(s)]
  }

  /** `str::trim`: drops white space at both ends and nothing else. */
  function Trim(s: string): (r: string)
    ensures |r| <= |s|
    ensures r == [] || (!IsWhiteSpace(r[0]) && !IsWhiteSpace(r[|r| - 1]))
  {
    TrimEnd(TrimStart(s))
  }

  /** What trimming drops is white space, on either side of what it keeps. */
  lemma TrimIsInfix(s: string)
    ensures var r := Trim(s);
            exists i :: 0 <= i <= |s| - |r| && s[i..i + |r|] == r
                        && AllWhiteSpace(s[..i]) && AllWhiteSpace(s[i + |r|..])
  {
    var r := Trim(s);
    var i := |s| - |TrimStart(s)|;
    assert 0 <= i <= |s| - |r| && s[i..i + |r|] == r && AllWhiteSpace(s[..i]) && AllWhiteSpace(s[i + |r|..]) by {
      var t := TrimStart(s);
      assert r == TrimEnd(t);
      InfixBetweenWhiteSpace(s, t, r);
    }
  }

  /** A prefix `r` of a suffix `t` of `s`, each cut made at white space, is
      an infix of `s` with white space on either side. */
  lemma InfixBetweenWhiteSpace(s: string, t: string, r: string)
    requires |t| <= |s| && t == s[|s| - |t|..] && AllWhiteSpace(s[..|s| - |t|])
    requires |r| <= |t| && r == t[..|r|] && AllWhiteSpace(t[|r|..])
    ensures |s| - |t| + |r| <= |s| && s[|s| - |t|..|s| - |t| + |r|] == r
    ensures AllWhiteSpace(s[|s| - |t| + |r|..])
  {
    var i := |s| - |t|;
    assert s[i..i + |r|] == r;
    assert s[i + |r|..] == t[|r|..];
  }

  /** Trimming twice is trimming once. */
  lemma {:induction false} TrimIdempotent(s: string)
    ensures Trim(Trim(s)) == Trim(s)
  {
    var r := Trim(s);
    assert LeadingWhiteSpace(r) == 0;
    assert TrimStart(r) == r;
    assert TrailingWhiteSpace(r) == 0;
  }

  /** White space in front adds exactly its own length to the leading run. */
  lemma {:induction false} LeadingWhiteSpaceOfPadded(w: string, s: string)
    requires AllWhiteSpace(w)
    ensures LeadingWhiteSpace(w + s) == |w| + LeadingWhiteSpace(s)
    decreases |w|
  {
    if w == [] {
      assert w + s == s;
    } else {
      assert (w + s)[0] == w[0] && IsWhiteSpace(w[0]);
      assert (w + s)[1..] == w[1..] + s;
      LeadingWhiteSpaceOfPadded(w[1..], s);
    }
  }

  /** Trimming a text padded with white space in front gives the text back
      when it neither starts nor ends with white space. */
  lemma TrimOfPadded(w: string, s: string)
    requires AllWhiteSpace(w)
    requires s != [] && !IsWhiteSpace(s[0]) && !IsWhiteSpace(s[|s| - 1])
    ensures Trim(w + s) == s
  {
    LeadingWhiteSpaceOfPadded(w, s);
    assert TrimStart(w + s) == s;
  }

  /** A text that neither starts nor ends with white space is its own trim. */
  lemma TrimUntouched(s: string)
    requires s != [] && !IsWhiteSpace(s[0]) && !IsWhiteSpace(s[|s| - 1])
    ensures Trim(s) == s
  {
    assert TrimStart(s) == s;
  }

  /** The first position of `c`: `str::find` with a character, and
      `iter().position` with an equality test. */
  function PositionOf<T(==)>(s: seq<T>, c: T): (r: Option<nat>)
    ensures r.None? ==> forall k :: 0 <= k < |s| ==> s[k] != c
    ensures r.Some? ==> r.value < |s| && s[r.value] == c && forall k :: 0 <= k < r.value ==> s[k] != c
  {
    if s == [] then None
    else if s[0] == c then Some(0)
    else match PositionOf(s[1..], c)
      case None => None
      case Some(i) => Some(i + 1)
  }

  /** `str::rfind(char)`: the last position of `c`. */
  function LastIndexOfChar(s: string, c: char): (r: Option<nat>)
    ensures r.None? ==> forall k :: 0 <= k < |s| ==> s[k] != c
    ensures r.Some? ==> r.value < |s| && s[r.value] == c && forall k :: r.value < k < |s| ==> s[k] != c
  {
    if s == [] then None
    else if s[|s| - 1] == c then Some(|s| - 1)
    else LastIndexOfChar(s[..|s| - 1], c)
  }

  /** A `c` with no other after it is the last one. */
  lemma LastIndexOfCharAt(s: string, c: char, m: nat)
    requires m < |s| && s[m] == c
    requires forall k :: m < k < |s| ==> s[k] != c
    ensures LastIndexOfChar(s, c) == Some(m)
  {
    match LastIndexOfChar(s, c)
    case None =>
      assert false;
    case Some(i) =>
      if i < m {
        assert false;
      } else if i > m {
        assert false;
      }
  }

  predicate OccursAt(s: string, pat: string, k: nat) {
    k + |pat| <= |s| && s[k..k + |pat|] == pat
  }

  /** The two characters of a two-character pattern where it occurs. */
  lemma OccursAtPair(s: string, pat: string, k: nat)
    requires |pat| == 2 && OccursAt(s, pat, k)
    ensures k + 1 < |s| && s[k] == pat[0] && s[k + 1] == pat[1]
  {
    assert s[k..k + 2][0] == s[k] && s[k..k + 2][1] == s[k + 1];
  }

  /** The first occurrence of `pat` at or after `from`. */
  function IndexOfFrom(s: string, pat: string, from: nat): (r: Option<nat>)
    ensures r.Some? ==> from <= r.value && OccursAt(s, pat, r.value)
    ensures r.Some? ==> forall k :: from <= k < r.value ==> !OccursAt(s, pat, k)
    ensures r.None? ==> forall k :: from <= k ==> !OccursAt(s, pat, k)
    decreases |s| - from
  {
    if from + |pat| > |s| then None
    else if OccursAt(s, pat, from) then Some(from)
    else IndexOfFrom(s, pat, from + 1)
  }

  /** `str::find(&str)` */
  function IndexOf(s: string, pat: string): Option<nat> {
    IndexOfFrom(s, pat, 0)
  }

  /** `str::contains(&str)` */
  predicate Contains(s: string, pat: string) {
    IndexOf(s, pat).Some?
  }

  /** `str::starts_with` */
  predicate StartsWith(s: string, prefix: string) {
    |prefix| <= |s| && s[..|prefix|] == prefix
  }

  /** `str::ends_with` */
  predicate EndsWith(s: string, suffix: string) {
    |suffix| <= |s| && s[|s| - |suffix|..] == suffix
  }

  /** `str::split(char)`: never empty. */
  function Split(s: string, c: char): (r: seq<string>)
    ensures |r| >= 1
    decreases |s|
  {
    match PositionOf(s, c)
    case None => [s]
    case Some(i) => [s[..i]] + Split(s[i + 1..], c)
  }

  /** The first `c` of `a + [c] + b` is the one after `a`, when `a` has none. */
  lemma PositionOfAfter(a: string, c: char, b: string)
    requires forall k :: 0 <= k < |a| ==> a[k] != c
    ensures PositionOf(a + [c] + b, c) == Some(|a|)
  {
    var s := a + [c] + b;
    assert s[|a|] == c;
    assert forall k :: 0 <= k < |a| ==> s[k] == a[k];
  }

  /** Splitting at the first separator. */
  lemma SplitAfter(a: string, c: char, b: string)
    requires forall k :: 0 <= k < |a| ==> a[k] != c
    ensures Split(a + [c] + b, c) == [a] + Split(b, c)
  {
    PositionOfAfter(a, c, b);
    var s := a + [c] + b;
    assert s[..|a|] == a && s[|a| + 1..] == b;
  }

  /** A text without the separator is one piece. */
  lemma SplitWithout(a: string, c: char)
    requires forall k :: 0 <= k < |a| ==> a[k] != c
    ensures Split(a, c) == [a]
  {
  }

  /** A text that starts with `pat` finds it at 0. */
  lemma IndexOfAtFront(pat: string, rest: string)
    ensures IndexOf(pat + rest, pat) == Some(0)
  {
    assert (pat + rest)[..|pat|] == pat;
    assert OccursAt(pat + rest, pat, 0);
  }

  /** The inverse of `Split`: `[T]::join` with a one-character separator. */
  function JoinSeparated(parts: seq<string>, c: char): string {
    if parts == [] then []
    else if |parts| == 1 then parts[0]
    else parts[0] + [c] + JoinSeparated(parts[1..], c)
  }

  lemma {:induction false} JoinSeparatedSplit(s: string, c: char)
    ensures JoinSeparated(Split(s, c), c) == s
    decreases |s|
  {
    match PositionOf(s, c)
    case None =>
    case Some(i) =>
      var rest := Split(s[i + 1..], c);
      var parts := [s[..i]] + rest;
      assert Split(s, c) == parts;
      assert parts[0] == s[..i] && parts[1..] == rest && |parts| >= 2;
      assert JoinSeparated(parts, c) == s[..i] + [c] + JoinSeparated(rest, c);
      JoinSeparatedSplit(s[i + 1..], c);
      assert s == s[..i] + [c] + s[i + 1..];
  }

  /** Number of non-white-space characters at the front of `s`. */
  function WordLength(s: string): (n: nat)
    ensures n <= |s| && NoWhiteSpace(s[..n])
    ensures n < |s| ==> IsWhiteSpace(s[n])
  {
    if s == [] || IsWhiteSpace(s[0]) then 0
    else
      var n := 1 + WordLength(s[1..]);
      assert s[..n] == [s[0]] + s[1..][..n - 1];
      n
  }

  /** `str::split_whitespace`: the maximal runs of non-white-space characters. */
  function SplitWhitespace(s: string): (r: seq<string>)
    ensures forall k :: 0 <= k < |r| ==> r[k] != [] && NoWhiteSpace(r[k])
    decreases |s|
  {
    var t := TrimStart(s);
    if t == [] then []
    else
      var n := WordLength(t);
      [t[..n]] + SplitWhitespace(t[n..])
  }

  /** A word followed by white space or the end is one token. */
  lemma {:induction false} WordLengthOfWord(w: string, rest: string)
    requires NoWhiteSpace(w)
    requires rest == [] || IsWhiteSpace(rest[0])
    ensures WordLength(w + rest) == |w|
    decreases |w|
  {
    if w == [] {
      assert w + rest == rest;
    } else {
      assert (w + rest)[0] == w[0];
      assert (w + rest)[1..] == w[1..] + rest;
      WordLengthOfWord(w[1..], rest);
    }
  }

  /** The first token of a text that starts with a word is that word. */
  lemma SplitWhitespaceOfWord(w: string, rest: string)
    requires w != [] && NoWhiteSpace(w)
    requires rest == [] || IsWhiteSpace(rest[0])
    ensures SplitWhitespace(w + rest) == [w] + SplitWhitespace(rest)
  {
    var s := w + rest;
    assert !IsWhiteSpace(s[0]);
    assert TrimStart(s) == s;
    WordLengthOfWord(w, rest);
    assert s[..|w|] == w && s[|w|..] == rest;
  }

  /** A single word is its only token. */
  lemma SplitWhitespaceOfOneWord(w: string)
    requires w != [] && NoWhiteSpace(w)
    ensures SplitWhitespace(w) == [w]
  {
    SplitWhitespaceOfWord(w, []);
    assert w + [] == w;
    assert SplitWhitespace([]) == [];
  }

  /** A word, one space, then the rest: the word is the first token. */
  lemma WordThenRest(w: string, rest: string)
    requires w != [] && NoWhiteSpace(w)
    ensures SplitWhitespace(w + (" " + rest)) == [w] + SplitWhitespace(rest)
  {
    SplitWhitespaceOfPadded(" ", rest);
    SplitWhitespaceOfWord(w, " " + rest);
  }

  /** Two words with one space between them. */
  lemma SplitWhitespaceOfTwoWords(a: string, b: string)
    requires a != [] && NoWhiteSpace(a) && b != [] && NoWhiteSpace(b)
    ensures SplitWhitespace(a + (" " + b)) == [a, b]
  {
    SplitWhitespaceOfOneWord(b);
    WordThenRest(a, b);
  }

  /** Three words with one space between each. */
  lemma SplitWhitespaceOfThreeWords(a: string, b: string, c: string)
    requires a != [] && NoWhiteSpace(a) && b != [] && NoWhiteSpace(b) && c != [] && NoWhiteSpace(c)
    ensures SplitWhitespace(a + (" " + (b + (" " + c)))) == [a, b, c]
  {
    SplitWhitespaceOfTwoWords(b, c);
    WordThenRest(a, b + (" " + c));
  }

  /** White space in front of a text adds no token. */
  lemma SplitWhitespaceOfPadded(w: string, rest: string)
    requires AllWhiteSpace(w)
    ensures SplitWhitespace(w + rest) == SplitWhitespace(rest)
  {
    LeadingWhiteSpaceOfPadded(w, rest);
    assert TrimStart(w + rest) == TrimStart(rest);
  }

  /** `str::lines`: pieces ended by `\n`, a `\r` before that `\n` dropped, and
      no empty piece after a final `\n`. */
  function Lines(s: string): (r: seq<string>)
    ensures forall k :: 0 <= k < |r| ==> NoNewline(r[k])
    ensures s == [] <==> r == []
    decreases |s|
  {
    if s == [] then []
    else match PositionOf(s, '\n')
      case None => [s]
      case Some(i) =>
        var line := s[..i];
        var kept := if line != [] && line[|line| - 1] == '\r' then line[..|line| - 1] else line;
        assert NoNewline(kept);
        [kept] + Lines(s[i + 1..])
  }

  predicate NoNewline(line: string) {
    forall j :: 0 <= j < |line| ==> line[j] != '\n'
  }

  /** A text without `\n` is a single line. */
  lemma LinesOfOneLine(s: string)
    requires s != [] && forall k :: 0 <= k < |s| ==> s[k] != '\n'
    ensures Lines(s) == [s]
  {
  }

  function LowerAscii(c: char): char {
    if 'A' <= c <= 'Z' then (c as int + 32) as char else c
  }

  /** `str::to_lowercase`, for ASCII letters. */
  function ToLowerAscii(s: string): (r: string)
    ensures |r| == |s| && forall k :: 0 <= k < |s| ==> r[k] == LowerAscii(s[k])
  {
    if s == [] then [] else [LowerAscii(s[0])] + ToLowerAscii(s[1..])
  }

  /** Lowering is decided character by character. */
  lemma ToLowerAsciiOfEach(s: string, t: string)
    requires |s| == |t| && forall k :: 0 <= k < |s| ==> LowerAscii(s[k]) == t[k]
    ensures ToLowerAscii(s) == t
  {
  }

  /** `str::replace`: non-overlapping occurrences of `pat`, left to right. */
  function ReplaceAll(s: string, pat: string, rep: string): string
    requires pat != []
    decreases |s|
  {
    if |s| < |pat| then s
    else if s[..|pat|] == pat then rep + ReplaceAll(s[|pat|..], pat, rep)
    else [s[0]] + ReplaceAll(s[1..], pat, rep)
  }

  predicate IsDigit(c: char) {
    '0' <= c <= '9'
  }

  predicate AllDigits(s: string) {
    forall k :: 0 <= k < |s| ==> IsDigit(s[k])
  }

  function DigitValue(c: char): nat
    requires IsDigit(c)
  {
    c as int - '0' as int
  }

  function DigitChar(d: nat): (c: char)
    requires d < 10
    ensures IsDigit(c) && DigitValue(c) == d
  {
    ('0' as int + d) as char
  }

  /** The number a string of decimal digits denotes (most significant first). */
  function DigitsValue(s: string): nat
    requires AllDigits(s)
  {
    if s == [] then 0 else 10 * DigitsValue(s[..|s| - 1]) + DigitValue(s[|s| - 1])
  }

  /** `format!("{}", n)` for an unsigned integer. */
  function DecimalString(n: nat): (r: string)
    ensures r != [] && AllDigits(r) && DigitsValue(r) == n
    ensures r[0] == '0' ==> n == 0
  {
    if n < 10 then [DigitChar(n)]
    else
      var r := DecimalString(n / 10) + [DigitChar(n % 10)];
      assert r[..|r| - 1] == DecimalString(n / 10);
      r
  }

  /** `str::parse::<uN>()` for an unsigned type whose largest value is `max`:
      an optional `+`, then one or more ASCII digits denoting at most `max`
      (leading zeros are accepted). */
  function ParseUnsigned(s: string, max: nat): (r: Option<nat>)
    ensures r.Some? ==> r.value <= max
    ensures r.Some? ==> s != [] && s != "+"
  {
    var t := if |s| > 0 && s[0] == '+' then s[1..] else s;
    if t != [] && AllDigits(t) && DigitsValue(t) <= max then Some(DigitsValue(t)) else None
  }

  /** Formatting then parsing gives the number back, for every value in range. */
  lemma DecimalRoundTrip(n: nat, max: nat)
    requires n <= max
    ensures ParseUnsigned(DecimalString(n), max) == Some(n)
  {
    var s := DecimalString(n);
    assert s[0] != '+';
  }

  /** A number with more than `max` as value is refused, however it is written. */
  lemma ParseRefusesOverflow(n: nat, max: nat)
    requires max < n
    ensures ParseUnsigned(DecimalString(n), max) == None
  {
    var s := DecimalString(n);
    assert s[0] != '+';
  }

  /** Bytes a character takes in UTF-8. */
  function Utf8Width(c: char): nat {
    if c as int < 0x80 then 1 else if c as int < 0x800 then 2 else if c as int < 0x10000 then 3 else 4
  }

  /** `str::len`: the length of the UTF-8 encoding, in bytes. */
  function Utf8Length(s: string): (n: nat)
    ensures |s| <= n <= 4 * |s|
  {
    if s == [] then 0 else Utf8Width(s[0]) + Utf8Length(s[1..])
  }
}
