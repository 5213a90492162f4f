/**
 * The pieces of java.lang.String the handlers rely on: `trim()`,
 * `split("\\s+", limit)`, `Integer.parseInt`, `toLowerCase()`,
 * `equalsIgnoreCase` and `Stream.distinct()` on a list of strings.
 */
module Text {
  import opened Base

  /** Characters removed by `String.trim()`: every code point up to U+0020. */
  predicate IsTrimmable(c: char) {
    c <= ' '
  }

  /** Characters of the regex class `\s` (Java's default, non-Unicode mode). */
  predicate IsWhitespace(c: char) {
    c == ' ' || c == '\t' || c == '\n' || c == '\U{000B}' || c == '\U{000C}' || c == '\r'
  }

  predicate NoWhitespace(s: string) {
    forall k :: 0 <= k < |s| ==> !IsWhitespace(s[k])
  }

  /* ---------------- trim ---------------- */

  /** Number of trimmable characters at the front of s. */
  function LeadingTrimmable(s: string): (k: nat)
    ensures k <= |s|
    ensures forall i :: 0 <= i < k ==> IsTrimmable(s[i])
    ensures k < |s| ==> !IsTrimmable(s[k])
  {
    if s == [] || !IsTrimmable(s[0]) then 0 else 1 + LeadingTrimmable(s[1..])
  }

  /** Number of trimmable characters at the back of s. */
  function TrailingTrimmable(s: string): (k: nat)
    ensures k <= |s|
    ensures forall i :: |s| - k <= i < |s| ==> IsTrimmable(s[i])
    ensures k < |s| ==> !IsTrimmable(s[|s| - 1 - k])
  {
    if s == [] || !IsTrimmable(s[|s| - 1]) then 0 else 1 + TrailingTrimmable(s[..|s| - 1])
  }

  /** True when neither end of s is trimmable. */
  predicate IsTrimmed(s: string) {
    s == [] || (!IsTrimmable(s[0]) && !IsTrimmable(s[|s| - 1]))
  }

  /** `s.trim()`: drops the trimmable characters at both ends. */
  function Trim(s: string): (r: string)
    ensures IsTrimmed(r)
    ensures |r| <= |s|
    ensures exists i, j :: (0 <= i <= j <= |s| && r == s[i..j]
                            && (forall k :: 0 <= k < i ==> IsTrimmable(s[k]))
                            && (forall k :: j <= k < |s| ==> IsTrimmable(s[k])))
  {
    var i := LeadingTrimmable(s);
    var t := s[i..];
    TrimEnds(s, t, i, |t| - TrailingTrimmable(t));
    t[..|t| - TrailingTrimmable(t)]
  }

  /** What trim keeps is a slice of s with only trimmable characters around it. */
  lemma TrimEnds(s: string, t: string, i: nat, m: nat)
    requires i == LeadingTrimmable(s) && t == s[i..] && m == |t| - TrailingTrimmable(t)
    ensures i + m <= |s| && t[..m] == s[i..i + m]
    ensures forall k :: i + m <= k < |s| ==> IsTrimmable(s[k])
  {
    forall k | i + m <= k < |s| ensures IsTrimmable(s[k]) {
      assert s[k] == t[k - i];
    }
  }

  /** Trimming changes nothing in a string whose ends are not trimmable, so trim is idempotent. */
  lemma TrimOfTrimmed(s: string)
    requires IsTrimmed(s)
    ensures Trim(s) == s
  {
    assert LeadingTrimmable(s) == 0;
    assert TrailingTrimmable(s) == 0;
  }

  lemma TrimIdempotent(s: string)
    ensures Trim(Trim(s)) == Trim(s)
  {
    TrimOfTrimmed(Trim(s));
  }

  /** One trimmable character before a trimmed, non-empty string is all that trim removes. */
  lemma TrimDropsLeadingChar(c: char, s: string)
    requires IsTrimmable(c) && s != [] && IsTrimmed(s)
    ensures Trim([c] + s) == s
  {
    var t := [c] + s;
    assert t[1..] == s && t[|t| - 1] == s[|s| - 1];
    assert LeadingTrimmable(s) == 0;
    assert LeadingTrimmable(t) == 1;
    assert TrailingTrimmable(s) == 0;
  }

  /* ---------------- split("\\s+", limit) ---------------- */

  /** Index of the first `\s` character of s, or |s| when there is none. */
  function FirstWhitespace(s: string): (i: nat)
    ensures i <= |s|
    ensures forall k :: 0 <= k < i ==> !IsWhitespace(s[k])
    ensures i < |s| ==> IsWhitespace(s[i])
  {
    if s == [] || IsWhitespace(s[0]) then 0 else 1 + FirstWhitespace(s[1..])
  }

  /** End of the maximal whitespace run that starts at i (the greedy match of `\s+`). */
  function WhitespaceRunEnd(s: string, i: nat): (j: nat)
    requires i < |s| && IsWhitespace(s[i])
    ensures i < j <= |s|
    ensures forall k :: i <= k < j ==> IsWhitespace(s[k])
    ensures j < |s| ==> !IsWhitespace(s[j])
    decreases |s| - i
  {
    if i + 1 < |s| && IsWhitespace(s[i + 1]) then WhitespaceRunEnd(s, i + 1) else i + 1
  }

  /**
   * The pieces `Pattern.split` collects for `\s+`, before trailing empty
   * pieces are dropped; limit 0 means "no limit", limit k > 0 keeps at most
   * k pieces, the last of which is the unsplit rest of the input.
   */
  function Pieces(s: string, limit: nat): (r: seq<string>)
    ensures |r| >= 1
    ensures limit > 0 ==> |r| <= limit
    ensures forall k :: 0 <= k < |r| - 1 ==> NoWhitespace(r[k])
    decreases |s|
  {
    var i := FirstWhitespace(s);
    if i == |s| || limit == 1 then [s]
    else
      var j := WhitespaceRunEnd(s, i);
      [s[..i]] + Pieces(s[j..], if limit == 0 then 0 else limit - 1)
  }

  /** Drops the empty strings at the end of a list (what `split` does for limit 0). */
  function DropTrailingEmpty(r: seq<string>): (t: seq<string>)
    ensures |t| <= |r| && t == r[..|t|]
    ensures t == [] || t[|t| - 1] != ""
    ensures forall k :: |t| <= k < |r| ==> r[k] == ""
  {
    if r == [] || r[|r| - 1] != "" then r else DropTrailingEmpty(r[..|r| - 1])
  }

  /** `s.split("\\s+", limit)` for limit >= 0. */
  function Split(s: string, limit: nat): (r: seq<string>)
    ensures limit > 0 ==> 1 <= |r| <= limit
  {
    if FirstWhitespace(s) == |s| then [s]
    else if limit == 0 then DropTrailingEmpty(Pieces(s, 0))
    else Pieces(s, limit)
  }

  /** A non-empty run of `\s` characters: what one match of `\s+` consumes. */
  predicate IsWhitespaceRun(w: string) {
    w != [] && forall k :: 0 <= k < |w| ==> IsWhitespace(w[k])
  }

  /** The parts joined back together, with seps[k] between part k and part k + 1. */
  function Interleave(parts: seq<string>, seps: seq<string>): string
    requires |parts| == |seps| + 1
  {
    if |seps| == 0 then parts[0] else parts[0] + seps[0] + Interleave(parts[1..], seps[1..])
  }

  /** parts, with the whitespace runs seps put back between them, are s. */
  predicate Rebuilds(parts: seq<string>, seps: seq<string>, s: string) {
    && |parts| == |seps| + 1
    && (forall k :: 0 <= k < |seps| ==> IsWhitespaceRun(seps[k]))
    && Interleave(parts, seps) == s
  }

  /** One more part and separator in front of a rebuild rebuild the longer string. */
  lemma RebuildsCons(p: string, sep: string, tail: seq<string>, seps: seq<string>, rest: string)
    requires Rebuilds(tail, seps, rest) && IsWhitespaceRun(sep)
    ensures Rebuilds([p] + tail, [sep] + seps, p + sep + rest)
  {
    var parts, seps' := [p] + tail, [sep] + seps;
    assert parts[1..] == tail && seps'[1..] == seps;
    assert forall k :: 1 <= k < |seps'| ==> seps'[k] == seps[k - 1];
  }

  /** One match of `\s+` splits off the first piece and the run it consumes. */
  lemma PiecesUnfold(s: string, limit: nat) returns (i: nat, j: nat)
    requires FirstWhitespace(s) < |s| && limit != 1
    ensures 0 < j <= |s| && i < j && IsWhitespaceRun(s[i..j])
    ensures s[..i] + s[i..j] + s[j..] == s && |s[j..]| < |s|
    ensures Pieces(s, limit) == [s[..i]] + Pieces(s[j..], if limit == 0 then 0 else limit - 1)
    ensures Separators(s, limit) == [s[i..j]] + Separators(s[j..], if limit == 0 then 0 else limit - 1)
  {
    i := FirstWhitespace(s);
    j := WhitespaceRunEnd(s, i);
    assert s[..i] + s[i..j] + s[j..] == s;
  }

  /** The whitespace runs the matches of `\s+` consume between the pieces. */
  function Separators(s: string, limit: nat): seq<string>
    decreases |s|
  {
    var i := FirstWhitespace(s);
    if i == |s| || limit == 1 then []
    else
      var j := WhitespaceRunEnd(s, i);
      [s[i..j]] + Separators(s[j..], if limit == 0 then 0 else limit - 1)
  }

  /**
   * The pieces come from s: put back the whitespace runs the matches
   * consumed and s is rebuilt.
   */
  lemma {:induction false} PiecesRebuild(s: string, limit: nat)
    ensures Rebuilds(Pieces(s, limit), Separators(s, limit), s)
    decreases |s|
  {
    if FirstWhitespace(s) == |s| || limit == 1 {
      assert Rebuilds(Pieces(s, limit), [], s);
    } else {
      var l := if limit == 0 then 0 else limit - 1;
      var i, j := PiecesUnfold(s, limit);
      var rest := s[j..];
      PiecesRebuild(rest, l);
      RebuildsCons(s[..i], s[i..j], Pieces(rest, l), Separators(rest, l), rest);
    }
  }

  /** Without a limit the last piece holds no whitespace either. */
  lemma {:induction false} LastPieceNoWhitespace(s: string)
    ensures NoWhitespace(Pieces(s, 0)[|Pieces(s, 0)| - 1])
    decreases |s|
  {
    var i := FirstWhitespace(s);
    if i < |s| {
      var j := WhitespaceRunEnd(s, i);
      LastPieceNoWhitespace(s[j..]);
      var tail := Pieces(s[j..], 0);
      assert Pieces(s, 0) == [s[..i]] + tail;
    }
  }

  /**
   * `split` is `Pattern.split` on the pieces: with a positive limit it keeps
   * them all, and with limit 0 it keeps them up to the last non-empty one,
   * so its parts with the separators put back rebuild a prefix of s.
   */
  lemma SplitRebuilds(s: string, limit: nat)
    ensures limit > 0 ==> Split(s, limit) == Pieces(s, limit)
    ensures limit == 0 ==> Split(s, 0) == Pieces(s, 0)[..|Split(s, 0)|]
    ensures limit == 0 ==> forall k :: |Split(s, 0)| <= k < |Pieces(s, 0)| ==> Pieces(s, 0)[k] == ""
    ensures limit == 0 && s != "" ==> Split(s, 0) == [] || Split(s, 0)[|Split(s, 0)| - 1] != ""
    ensures exists seps :: Rebuilds(Pieces(s, limit), seps, s)
  {
    PiecesRebuild(s, limit);
    assert Rebuilds(Pieces(s, limit), Separators(s, limit), s);
  }

  predicate NoEdgeWhitespace(s: string) {
    s == [] || (!IsWhitespace(s[0]) && !IsWhitespace(s[|s| - 1]))
  }

  /** On a non-empty string without whitespace at its ends every piece is non-empty. */
  lemma {:induction false} PiecesNonEmpty(s: string, limit: nat)
    requires s != [] && NoEdgeWhitespace(s)
    ensures forall k :: 0 <= k < |Pieces(s, limit)| ==> Pieces(s, limit)[k] != ""
    decreases |s|
  {
    var i := FirstWhitespace(s);
    if i == |s| || limit == 1 {
    } else {
      var j := WhitespaceRunEnd(s, i);
      assert i > 0;
      assert j < |s| by {
        assert !IsWhitespace(s[|s| - 1]);
      }
      var rest := s[j..];
      assert rest[0] == s[j] && rest[|rest| - 1] == s[|s| - 1];
      PiecesNonEmpty(rest, if limit == 0 then 0 else limit - 1);
      var tail := Pieces(rest, if limit == 0 then 0 else limit - 1);
      assert Pieces(s, limit) == [s[..i]] + tail;
      forall k | 0 <= k < |Pieces(s, limit)| ensures Pieces(s, limit)[k] != "" {
        if k > 0 { assert Pieces(s, limit)[k] == tail[k - 1]; }
      }
    }
  }

  /**
   * After `trim()` the unlimited split drops nothing and yields only
   * non-empty tokens; the empty string splits into the single token "".
   */
  lemma SplitOfTrimmed(s: string)
    requires IsTrimmed(s)
    ensures s == [] ==> Split(s, 0) == [""]
    ensures s != [] ==> forall k :: 0 <= k < |Split(s, 0)| ==> Split(s, 0)[k] != ""
  {
    if s != [] {
      PiecesNonEmpty(s, 0);
      if FirstWhitespace(s) < |s| {
        var p := Pieces(s, 0);
        assert p[|p| - 1] != "";
        assert DropTrailingEmpty(p) == p;
      }
    }
  }

  lemma {:induction false} FirstWhitespaceAfterWord(w: string, rest: string)
    requires NoWhitespace(w) && rest != [] && IsWhitespace(rest[0])
    ensures FirstWhitespace(w + rest) == |w|
  {
    if w == [] {
      assert w + rest == rest;
    } else {
      assert (w + rest)[0] == w[0] && (w + rest)[1..] == w[1..] + rest;
      FirstWhitespaceAfterWord(w[1..], rest);
    }
  }

  /** A word, one separator and a rest that starts with a non-blank: the word is the first piece. */
  lemma PiecesOfWordThenRest(w: string, sep: char, rest: string, limit: nat)
    requires w != [] && NoWhitespace(w) && IsWhitespace(sep)
    requires rest != [] && !IsWhitespace(rest[0]) && limit != 1
    ensures Pieces(w + [sep] + rest, limit) == [w] + Pieces(rest, if limit == 0 then 0 else limit - 1)
  {
    var s := w + [sep] + rest;
    assert s == w + ([sep] + rest);
    FirstWhitespaceAfterWord(w, [sep] + rest);
    assert s[|w|] == sep && s[|w| + 1] == rest[0];
    assert WhitespaceRunEnd(s, |w|) == |w| + 1;
    assert s[..|w|] == w && s[|w| + 1..] == rest;
  }

  /** Two words and a rest, single-spaced, split with limit 3 into exactly those three parts. */
  lemma SplitThree(a: string, b: string, c: string)
    requires a != [] && NoWhitespace(a) && b != [] && NoWhitespace(b)
    requires c != [] && !IsWhitespace(c[0])
    ensures Split(a + [' '] + b + [' '] + c, 3) == [a, b, c]
  {
    var bc := b + [' '] + c;
    assert bc[0] == b[0];
    SplitOfWordThenRest(a, bc, 3);
    PiecesOfWordThenLast(b, c);
    assert a + [' '] + b + [' '] + c == a + [' '] + bc;
  }

  /** A word, a space and a rest that starts with a non-blank: the word is the first part. */
  lemma SplitOfWordThenRest(w: string, rest: string, limit: nat)
    requires w != [] && NoWhitespace(w) && rest != [] && !IsWhitespace(rest[0]) && limit > 1
    ensures Split(w + [' '] + rest, limit) == [w] + Pieces(rest, limit - 1)
  {
    PiecesOfWordThenRest(w, ' ', rest, limit);
    FirstWhitespaceAfterWord(w, [' '] + rest);
    assert w + ([' '] + rest) == w + [' '] + rest;
  }

  /** A word, a space and a rest make exactly two pieces under limit 2. */
  lemma PiecesOfWordThenLast(w: string, rest: string)
    requires w != [] && NoWhitespace(w) && rest != [] && !IsWhitespace(rest[0])
    ensures Pieces(w + [' '] + rest, 2) == [w, rest]
  {
    PiecesOfWordThenRest(w, ' ', rest, 2);
  }

  /** A non-blank character in front of a word leaves a word. */
  lemma NoWhitespacePrepend(c: char, w: string)
    requires !IsWhitespace(c) && NoWhitespace(w)
    ensures NoWhitespace([c] + w)
  {
    var cw := [c] + w;
    forall k | 0 <= k < |cw| ensures !IsWhitespace(cw[k]) {
      if k > 0 {
        assert cw[k] == w[k - 1];
      }
    }
  }

  /** Two words, single-spaced, are two pieces without a limit. */
  lemma PiecesOfTwoWords(a: string, b: string)
    requires a != [] && NoWhitespace(a) && b != [] && NoWhitespace(b)
    ensures Pieces(a + [' '] + b, 0) == [a, b]
  {
    PiecesOfWordThenRest(a, ' ', b, 0);
    assert FirstWhitespace(b) == |b|;
  }

  /** A word and a rest, single-spaced, split with limit 2 into exactly those two parts. */
  lemma SplitTwo(a: string, b: string)
    requires a != [] && NoWhitespace(a)
    requires b != [] && !IsWhitespace(b[0])
    ensures Split(a + [' '] + b, 2) == [a, b]
  {
    PiecesOfWordThenRest(a, ' ', b, 2);
    FirstWhitespaceAfterWord(a, [' '] + b);
    assert a + ([' '] + b) == a + [' '] + b;
  }

  /** Two words, single-spaced, split without a limit into exactly those two words. */
  lemma SplitTwoWords(a: string, b: string)
    requires a != [] && NoWhitespace(a) && b != [] && NoWhitespace(b)
    ensures Split(a + [' '] + b, 0) == [a, b]
  {
    PiecesOfWordThenRest(a, ' ', b, 0);
    FirstWhitespaceAfterWord(a, [' '] + b);
    assert a + ([' '] + b) == a + [' '] + b;
    assert FirstWhitespace(b) == |b|;
  }

  /* ---------------- Integer.parseInt ---------------- */

  const INT_MIN: int := -0x8000_0000
  const INT_MAX: int := 0x7FFF_FFFF

  predicate IsAsciiDigit(c: char) {
    '0' <= c <= '9'
  }

  predicate AllDigits(s: string) {
    forall k :: 0 <= k < |s| ==> IsAsciiDigit(s[k])
  }

  function DigitValue(c: char): (d: nat)
    requires IsAsciiDigit(c)
    ensures d < 10
  {
    (c as int) - ('0' as int)
  }

  function DigitChar(d: nat): (c: char)
    requires d < 10
    ensures IsAsciiDigit(c) && DigitValue(c) == d
  {
    (('0' as int) + d) as char
  }

  /** The value of a string of decimal digits, most significant first. */
  function DigitsValue(s: string): nat
    requires AllDigits(s)
  {
    if s == [] then 0 else 10 * DigitsValue(s[..|s| - 1]) + DigitValue(s[|s| - 1])
  }

  /**
   * `Integer.parseInt(s)`: an optional sign followed by at least one digit,
   * with the value inside the 32-bit range; None stands for the
   * NumberFormatException.
   */
  function ParseInt(s: string): (r: Option<int>)
    ensures r.Some? ==> INT_MIN <= r.value <= INT_MAX
    ensures r.Some? ==> s != [] && (IsAsciiDigit(s[0]) || s[0] == '-' || s[0] == '+')
    ensures s == [] || s == "-" || s == "+" ==> r.None?
  {
    if s == [] then None
    else
      var digits := if s[0] == '-' || s[0] == '+' then s[1..] else s;
      if digits == [] || !AllDigits(digits) then None
      else
        var magnitude: int := DigitsValue(digits);
        var v := if s[0] == '-' then -magnitude else magnitude;
        if INT_MIN <= v <= INT_MAX then Some(v) else None
  }

  /** Decimal digits of n without leading zeros (`Integer.toString` for n >= 0). */
  function Digits(n: nat): (s: string)
    ensures s != [] && AllDigits(s)
  {
    if n < 10 then [DigitChar(n)] else Digits(n / 10) + [DigitChar(n % 10)]
  }

  /** `Integer.toString(n)`. */
  function IntToString(n: int): string {
    if n < 0 then "-" + Digits(-n) else Digits(n)
  }

  lemma {:induction false} DigitsValueOfDigits(n: nat)
    ensures DigitsValue(Digits(n)) == n
  {
    if n >= 10 {
      var s := Digits(n);
      assert s[..|s| - 1] == Digits(n / 10);
      DigitsValueOfDigits(n / 10);
    }
  }

  /** Every 32-bit integer survives printing and parsing. */
  lemma ParseIntOfIntToString(n: int)
    requires INT_MIN <= n <= INT_MAX
    ensures ParseInt(IntToString(n)) == Some(n)
  {
    if n < 0 {
      var d := Digits(-n);
      var s := IntToString(n);
      assert s == "-" + d;
      assert s[0] == '-' && s[1..] == d;
      DigitsValueOfDigits(-n);
    } else {
      var d := Digits(n);
      assert IsAsciiDigit(d[0]);
      DigitsValueOfDigits(n);
    }
  }

  /* ---------------- toLowerCase / equalsIgnoreCase ---------------- */

  /** Lower-case mapping for Latin capitals A-Z and the basic Cyrillic capitals; other characters are kept. */
  function LowerChar(c: char): char {
    if 'A' <= c <= 'Z' then ((c as int) + 32) as char
    else if '\U{0410}' <= c <= '\U{042F}' then ((c as int) + 32) as char
    else if '\U{0400}' <= c <= '\U{040F}' then ((c as int) + 80) as char
    else c
  }

  /** `s.toLowerCase()`. */
  function ToLower(s: string): (r: string)
    ensures |r| == |s|
  {
    seq(|s|, k requires 0 <= k < |s| => LowerChar(s[k]))
  }

  lemma ToLowerIdempotent(s: string)
    ensures ToLower(ToLower(s)) == ToLower(s)
  {
  }

  /** `a.equalsIgnoreCase(b)`: same length and the characters agree after case mapping. */
  predicate EqualsIgnoreCase(a: string, b: string)
    ensures EqualsIgnoreCase(a, b) ==> |a| == |b|
    ensures a == b ==> EqualsIgnoreCase(a, b)
  {
    |a| == |b| && forall k :: 0 <= k < |a| ==> LowerChar(a[k]) == LowerChar(b[k])
  }

  /** Comparing ignoring case is comparing the lower-cased strings. */
  lemma EqualsIgnoreCaseIffLowerEqual(a: string, b: string)
    ensures EqualsIgnoreCase(a, b) <==> ToLower(a) == ToLower(b)
  {
    if ToLower(a) == ToLower(b) {
      forall k | 0 <= k < |a| ensures LowerChar(a[k]) == LowerChar(b[k]) {
        assert ToLower(a)[k] == ToLower(b)[k];
      }
    }
  }

  /* ---------------- Stream.distinct() ---------------- */

  predicate NoDuplicates<T(==)>(s: seq<T>) {
    forall i, j :: 0 <= i < j < |s| ==> s[i] != s[j]
  }

  /** Position of the first occurrence of x in s. */
  function FirstIndex<T(==)>(s: seq<T>, x: T): (k: nat)
    requires x in s
    ensures k < |s| && s[k] == x
    ensures forall i :: 0 <= i < k ==> s[i] != x
  {
    if s[0] == x then 0 else 1 + FirstIndex(s[1..], x)
  }

  lemma {:induction false} FirstIndexOfPrefix<T>(s: seq<T>, t: seq<T>, x: T)
    requires x in s
    ensures x in s + t && FirstIndex(s + t, x) == FirstIndex(s, x)
  {
    var k := FirstIndex(s, x);
    var k' := FirstIndex(s + t, x);
    assert (s + t)[k] == x;
    assert (s + t)[k'] == s[k'];
  }

  /**
   * `stream.distinct()`: every element of s exactly once, ordered by
   * where it first occurs in s.
   */
  function Distinct<T(==)>(s: seq<T>): (r: seq<T>)
    ensures forall i :: 0 <= i < |r| ==> r[i] in s
    ensures forall i :: 0 <= i < |s| ==> s[i] in r
    ensures NoDuplicates(r)
    ensures forall i, j :: 0 <= i < j < |r| ==> FirstIndex(s, r[i]) < FirstIndex(s, r[j])
  {
    if s == [] then []
    else
      var init := s[..|s| - 1];
      var last := s[|s| - 1];
      var r := Distinct(init);
      assert s == init + [last];
      if last in r then
        DistinctOfSeen(init, last, r);
        r
      else
        DistinctOfNew(init, last, r);
        r + [last]
  }

  /** An element seen before leaves the distinct list of the longer sequence as it was. */
  lemma DistinctOfSeen<T>(init: seq<T>, last: T, r: seq<T>)
    requires forall i :: 0 <= i < |r| ==> r[i] in init
    requires forall i :: 0 <= i < |init| ==> init[i] in r
    requires forall i, j :: 0 <= i < j < |r| ==> FirstIndex(init, r[i]) < FirstIndex(init, r[j])
    requires last in r
    ensures forall i :: 0 <= i < |r| ==> r[i] in init + [last]
    ensures forall i :: 0 <= i < |init + [last]| ==> (init + [last])[i] in r
    ensures forall i, j :: 0 <= i < j < |r| ==> FirstIndex(init + [last], r[i]) < FirstIndex(init + [last], r[j])
  {
    var s := init + [last];
    forall x | x in init ensures FirstIndex(s, x) == FirstIndex(init, x) {
      FirstIndexOfPrefix(init, [last], x);
    }
    forall i | 0 <= i < |s| ensures s[i] in r {
      if i < |init| {
        assert s[i] == init[i];
      }
    }
  }

  /** A new element goes at the end of the distinct list, after everything seen before it. */
  lemma DistinctOfNew<T>(init: seq<T>, last: T, r: seq<T>)
    requires forall i :: 0 <= i < |r| ==> r[i] in init
    requires forall i :: 0 <= i < |init| ==> init[i] in r
    requires NoDuplicates(r)
    requires forall i, j :: 0 <= i < j < |r| ==> FirstIndex(init, r[i]) < FirstIndex(init, r[j])
    requires last !in r
    ensures forall i :: 0 <= i < |r + [last]| ==> (r + [last])[i] in init + [last]
    ensures forall i :: 0 <= i < |init + [last]| ==> (init + [last])[i] in r + [last]
    ensures NoDuplicates(r + [last])
    ensures forall i, j :: 0 <= i < j < |r + [last]| ==> FirstIndex(init + [last], (r + [last])[i]) < FirstIndex(init + [last], (r + [last])[j])
  {
    var s := init + [last];
    var t := r + [last];
    forall i | 0 <= i < |t| ensures t[i] in s {
      if i < |r| {
        assert t[i] == r[i];
      }
    }
    forall i | 0 <= i < |s| ensures s[i] in t {
      if i < |init| {
        assert s[i] == init[i];
      }
    }
    DistinctOfNewOrdered(init, last, r);
  }

  lemma DistinctOfNewOrdered<T>(init: seq<T>, last: T, r: seq<T>)
    requires forall i :: 0 <= i < |r| ==> r[i] in init
    requires forall i, j :: 0 <= i < j < |r| ==> FirstIndex(init, r[i]) < FirstIndex(init, r[j])
    requires last !in init
    ensures forall i, j :: 0 <= i < j < |r + [last]| ==> FirstIndex(init + [last], (r + [last])[i]) < FirstIndex(init + [last], (r + [last])[j])
  {
    var s := init + [last];
    var t := r + [last];
    forall x | x in init ensures FirstIndex(s, x) == FirstIndex(init, x) {
      FirstIndexOfPrefix(init, [last], x);
    }
    assert FirstIndex(s, last) == |s| - 1;
    forall i, j | 0 <= i < j < |t| ensures FirstIndex(s, t[i]) < FirstIndex(s, t[j]) {
      assert t[i] == r[i];
      if j < |r| {
        assert t[j] == r[j];
      }
    }
  }
}
