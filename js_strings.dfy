/**
 * The string built-ins of JavaScript that the scraper relies on, over
 * strings of characters: the `\s` and `\d` regular-expression classes,
 * the whitespace-trimming replace, `match(/\d+/)`, the global replace of
 * the pattern `\?itok=.*` (with the g flag), `split`, `join`, and `Number` on decimal digit strings.
 */
module JsStrings {
  import opened Wrappers

  /** JavaScript's `\s`: the ECMAScript WhiteSpace and LineTerminator characters. */
  predicate IsWhitespace(c: char)
  {
    var n := c as int;
    (0x09 <= n <= 0x0D) || n == 0x20 || n == 0xA0 || n == 0x1680
    || (0x2000 <= n <= 0x200A) || n == 0x2028 || n == 0x2029
    || n == 0x202F || n == 0x205F || n == 0x3000 || n == 0xFEFF
  }

  /** The characters that `.` in a JavaScript regular expression does not match. */
  predicate IsLineTerminator(c: char)
  {
    c == '\n' || c == '\r' || c as int == 0x2028 || c as int == 0x2029
  }

  /** JavaScript's `\d`: ASCII decimal digits only. */
  predicate IsDigit(c: char)
  {
    '0' <= c <= '9'
  }

  predicate AllDigits(s: string)
  {
    forall k | 0 <= k < |s| :: IsDigit(s[k])
  }

  // ---------------------------------------------------------------------------
  // s.replace(/^\s+|\s+$/g, '')
  // ---------------------------------------------------------------------------

  /** Length of the leading run of whitespace. */
  function LeadingSpace(s: string): (n: nat)
    ensures n <= |s|
    ensures forall k | 0 <= k < n :: IsWhitespace(s[k])
    ensures n < |s| ==> !IsWhitespace(s[n])
  {
    if s != [] && IsWhitespace(s[0]) then 1 + LeadingSpace(s[1..]) else 0
  }

  /** Length of the string once its trailing run of whitespace is cut off. */
  function WithoutTrailingSpace(s: string): (n: nat)
    ensures n <= |s|
    ensures forall k | n <= k < |s| :: IsWhitespace(s[k])
    ensures n > 0 ==> !IsWhitespace(s[n - 1])
  {
    if s != [] && IsWhitespace(s[|s| - 1]) then WithoutTrailingSpace(s[..|s| - 1]) else |s|
  }

  /**
   * The global replace of `/^\s+|\s+$/g` by the empty string: the first
   * alternative removes the leading whitespace run, the second the trailing
   * one (it matches only where everything up to the end is whitespace).
   * The result is the part of `s` between those two runs.
   */
  function Trim(s: string): (r: string)
    ensures LeadingSpace(s) + |r| <= |s|
    ensures r == s[LeadingSpace(s)..LeadingSpace(s) + |r|]
    ensures forall k | LeadingSpace(s) + |r| <= k < |s| :: IsWhitespace(s[k])
    ensures r != [] ==> !IsWhitespace(r[0]) && !IsWhitespace(r[|r| - 1])
  {
    var rest := s[LeadingSpace(s)..];
    rest[..WithoutTrailingSpace(rest)]
  }

  /** A string that neither starts nor ends with whitespace is left as it is. */
  lemma TrimUntrimmed(s: string)
    requires s != [] ==> !IsWhitespace(s[0]) && !IsWhitespace(s[|s| - 1])
    ensures Trim(s) == s
  {
    assert LeadingSpace(s) == 0;
    assert s[0..] == s;
    assert WithoutTrailingSpace(s) == |s|;
  }

  /** Trimming twice is trimming once. */
  lemma TrimIdempotent(s: string)
    ensures Trim(Trim(s)) == Trim(s)
  {
    TrimUntrimmed(Trim(s));
  }

  /** The trimmed name is empty exactly when the text is all whitespace. */
  lemma TrimEmptyIffAllWhitespace(s: string)
    ensures Trim(s) == [] <==> forall k | 0 <= k < |s| :: IsWhitespace(s[k])
  {
    if Trim(s) == [] {
      forall k | 0 <= k < |s| ensures IsWhitespace(s[k]) {
        if k >= LeadingSpace(s) {
          assert LeadingSpace(s) + |Trim(s)| <= k;
        }
      }
    } else {
      var i := LeadingSpace(s);
      assert s[i] == Trim(s)[0];
    }
  }

  // ---------------------------------------------------------------------------
  // s.match(/\d+/)[0]
  // ---------------------------------------------------------------------------

  /** Index of the first digit, or None when there is none. */
  function FirstDigit(s: string): (r: Option<nat>)
    ensures r.None? <==> forall k | 0 <= k < |s| :: !IsDigit(s[k])
    ensures r.Some? ==> r.value < |s| && IsDigit(s[r.value])
    ensures r.Some? ==> forall k | 0 <= k < r.value :: !IsDigit(s[k])
  {
    if s == [] then None
    else if IsDigit(s[0]) then Some(0)
    else match FirstDigit(s[1..])
      case None => None
      case Some(i) => Some(i + 1)
  }

  /** Length of the leading run of digits. */
  function DigitRun(s: string): (n: nat)
    ensures n <= |s|
    ensures forall k | 0 <= k < n :: IsDigit(s[k])
    ensures n < |s| ==> !IsDigit(s[n])
  {
    if s != [] && IsDigit(s[0]) then 1 + DigitRun(s[1..]) else 0
  }

  /**
   * `s.match(/\d+/)`: the leftmost match of one or more digits, which is
   * greedy and so runs to the first non-digit; None stands for `null`.
   */
  function MatchDigits(s: string): (r: Option<string>)
    ensures r.None? <==> forall k | 0 <= k < |s| :: !IsDigit(s[k])
    ensures r.Some? ==> r.value != [] && AllDigits(r.value)
    ensures r.Some? ==>
      var i := FirstDigit(s).value;
      && i + |r.value| <= |s|
      && r.value == s[i..i + |r.value|]
      && (i + |r.value| < |s| ==> !IsDigit(s[i + |r.value|]))
  {
    match FirstDigit(s)
    case None => None
    case Some(i) => Some(s[i..i + DigitRun(s[i..])])
  }

  /** A maximal run of digits at s[i..j]. */
  ghost predicate IsDigitRun(s: string, i: int, j: int)
  {
    && 0 <= i < j <= |s|
    && (forall k | i <= k < j :: IsDigit(s[k]))
    && (i == 0 || !IsDigit(s[i - 1]))
    && (j == |s| || !IsDigit(s[j]))
  }

  /** Two maximal digit runs that start at the same place end at the same place. */
  lemma DigitRunEnd(s: string, i: int, j: int, e: int)
    requires IsDigitRun(s, i, j) && IsDigitRun(s, i, e)
    ensures j == e
  {
  }

  /** The match is a maximal digit run, and no other maximal digit run starts before it. */
  lemma MatchDigitsIsLeftmostRun(s: string, i: int, j: int)
    requires IsDigitRun(s, i, j)
    ensures MatchDigits(s).Some?
    ensures var p := MatchDigits(s).value; var f := FirstDigit(s).value;
      IsDigitRun(s, f, f + |p|) && f <= i && (f == i ==> s[i..j] == p)
  {
    assert IsDigit(s[i]);
    var p := MatchDigits(s).value;
    var f := FirstDigit(s).value;
    forall k | f <= k < f + |p| ensures IsDigit(s[k]) {
      assert s[k] == p[k - f];
    }
    assert IsDigitRun(s, f, f + |p|);
    if f == i {
      DigitRunEnd(s, i, j, f + |p|);
    }
  }

  // ---------------------------------------------------------------------------
  // src.replace(/\?itok=.*/g, '')
  // ---------------------------------------------------------------------------

  const ItokMarker: string := "?itok="

  predicate StartsWith(s: string, p: string)
  {
    |p| <= |s| && s[..|p|] == p
  }

  /** Length of the leading part of `s` that `.*` matches: up to the first line terminator. */
  function LineLength(s: string): (n: nat)
    ensures n <= |s|
    ensures forall k | 0 <= k < n :: !IsLineTerminator(s[k])
    ensures n < |s| ==> IsLineTerminator(s[n])
  {
    if s != [] && !IsLineTerminator(s[0]) then 1 + LineLength(s[1..]) else 0
  }

  /**
   * The global replace of the pattern `\?itok=.*` (g flag) by the empty string: scanning left
   * to right, each `?itok=` is removed together with the rest of its line
   * (the line terminator itself stays), and scanning resumes after it.
   */
  function StripItok(s: string): (r: string)
    ensures |r| <= |s|
    decreases |s|
  {
    if s == [] then []
    else if StartsWith(s, ItokMarker) then
      assert forall k | 0 <= k < |ItokMarker| :: s[k] == ItokMarker[k];
      assert LineLength(s) >= |ItokMarker| by {
        if LineLength(s) < |ItokMarker| {
          assert IsLineTerminator(s[LineLength(s)]);
        }
      }
      StripItok(s[LineLength(s)..])
    else [s[0]] + StripItok(s[1..])
  }

  /** Index of the first occurrence of `p` in `s`. */
  function IndexOf(s: string, p: string): (r: Option<nat>)
    ensures r.Some? ==> r.value + |p| <= |s| && StartsWith(s[r.value..], p)
    ensures r.Some? ==> forall k | 0 <= k < r.value :: !StartsWith(s[k..], p)
    ensures r.None? ==> forall k | 0 <= k <= |s| :: !StartsWith(s[k..], p)
  {
    if StartsWith(s, p) then Some(0)
    else if s == [] then None
    else match IndexOf(s[1..], p)
      case None =>
        assert forall k | 1 <= k <= |s| :: s[k..] == s[1..][k - 1..];
        None
      case Some(i) =>
        assert forall k | 1 <= k <= i + 1 :: s[k..] == s[1..][k - 1..];
        Some(i + 1)
  }

  /** Text without any `?itok=` is left as it is, whatever lines it spans. */
  lemma {:induction false} StripItokNoMarker(s: string)
    requires IndexOf(s, ItokMarker).None?
    ensures StripItok(s) == s
    decreases |s|
  {
    if s != [] {
      StripItokNoMarker(s[1..]);
    }
  }

  /**
   * On a single-line `src`, removing `?itok=…` keeps exactly the part before
   * the first `?itok=`, or all of `src` when it has none.
   */
  lemma {:induction false} StripItokSingleLine(s: string)
    requires forall k | 0 <= k < |s| :: !IsLineTerminator(s[k])
    ensures StripItok(s) == match IndexOf(s, ItokMarker)
      case Some(i) => s[..i]
      case None => s
  {
    if s == [] {
    } else if StartsWith(s, ItokMarker) {
      assert LineLength(s) == |s|;
      assert s[|s|..] == [];
    } else {
      StripItokSingleLine(s[1..]);
      match IndexOf(s[1..], ItokMarker)
      case None =>
      case Some(i) =>
        assert s[..i + 1] == [s[0]] + s[1..][..i];
    }
  }

  // ---------------------------------------------------------------------------
  // s.split(sep) and pieces.join(sep) for a one-character separator
  // ---------------------------------------------------------------------------

  /**
   * `s.split(sep)`: the pieces between separators, in order; an empty string
   * gives one empty piece, and adjacent separators give empty pieces.
   */
  function Split(s: string, sep: char): (r: seq<string>)
    ensures |r| >= 1
    ensures forall p | p in r :: sep !in p
    decreases |s|
  {
    if s == [] then [[]]
    else
      var rest := Split(s[1..], sep);
      if s[0] == sep then [[]] + rest
      else [[s[0]] + rest[0]] + rest[1..]
  }

  /** `pieces.join(sep)`: the pieces with `sep` between neighbours; `[].join(sep)` is "". */
  function Join(pieces: seq<string>, sep: char): string
  {
    if pieces == [] then []
    else if |pieces| == 1 then pieces[0]
    else pieces[0] + [sep] + Join(pieces[1..], sep)
  }

  /** Joining the pieces of a split gives back the string. */
  lemma {:induction false} JoinSplit(s: string, sep: char)
    ensures Join(Split(s, sep), sep) == s
  {
    if s != [] {
      var rest := Split(s[1..], sep);
      JoinSplit(s[1..], sep);
      if s[0] == sep {
        assert Split(s, sep) == [[]] + rest;
      } else {
        var r := Split(s, sep);
        assert r[0] == [s[0]] + rest[0];
        if |rest| == 1 {
          assert r == [[s[0]] + rest[0]];
        } else {
          assert r[1..] == rest[1..];
          assert Join(rest, sep) == rest[0] + [sep] + Join(rest[1..], sep);
        }
      }
    }
  }

  /** Splitting a piece that holds no separator, followed by more text. */
  lemma {:induction false} SplitPiece(p: string, sep: char, rest: string)
    requires sep !in p
    ensures Split(p + [sep] + rest, sep) == [p] + Split(rest, sep)
    ensures Split(p, sep) == [p]
    decreases |p|
  {
    if p != [] {
      assert (p + [sep] + rest)[1..] == p[1..] + [sep] + rest;
      SplitPiece(p[1..], sep, rest);
      assert [p[0]] + p[1..] == p;
    } else {
      assert ([] + [sep] + rest)[1..] == rest;
    }
  }

  /**
   * Splitting a join gives back the pieces, provided there is at least one
   * piece and no piece holds the separator.
   */
  lemma {:induction false} SplitJoin(pieces: seq<string>, sep: char)
    requires |pieces| >= 1
    requires forall i | 0 <= i < |pieces| :: sep !in pieces[i]
    ensures Split(Join(pieces, sep), sep) == pieces
  {
    SplitPiece(pieces[0], sep, []);
    if |pieces| > 1 {
      SplitJoin(pieces[1..], sep);
      SplitPiece(pieces[0], sep, Join(pieces[1..], sep));
    }
  }

  // ---------------------------------------------------------------------------
  // Number(s) on decimal digit strings, and the decimal rendering of a natural
  // ---------------------------------------------------------------------------

  /** What `Number(text)` gives, as far as this model goes. */
  datatype JsNumber =
    | Integer(value: nat)      // text made only of ASCII digits (the empty text reads as 0)
    | Unmodelled(text: string) // anything else: NaN, fractions, hexadecimal, padded text

  function DigitValue(c: char): nat
    requires IsDigit(c)
  {
    c as int - '0' as int
  }

  function DigitChar(d: nat): (c: char)
    requires d < 10
    ensures IsDigit(c) && DigitValue(c) == d
  {
    ('0' as int + d) as char
  }

  /** The value of a string of decimal digits, most significant first. */
  function DigitsValue(s: string): nat
    requires AllDigits(s)
  {
    if s == [] then 0 else 10 * DigitsValue(s[..|s| - 1]) + DigitValue(s[|s| - 1])
  }

  /** `Number(text)` on a digit string; any other text is not modelled. */
  function NumberOf(text: string): (r: JsNumber)
    ensures r.Integer? <==> AllDigits(text)
  {
    if AllDigits(text) then Integer(DigitsValue(text)) else Unmodelled(text)
  }

  /** The decimal rendering of `n` that JavaScript's `String(n)` and `join` produce. */
  function Decimal(n: nat): (s: string)
    ensures s != [] && AllDigits(s)
    ensures |s| > 1 ==> s[0] != '0'
  {
    if n < 10 then [DigitChar(n)] else Decimal(n / 10) + [DigitChar(n % 10)]
  }

  /** `Number` reads back what `Decimal` renders. */
  lemma {:induction false} NumberOfDecimal(n: nat)
    ensures NumberOf(Decimal(n)) == Integer(n)
  {
    if n >= 10 {
      NumberOfDecimal(n / 10);
      var s := Decimal(n);
      assert s[..|s| - 1] == Decimal(n / 10);
      assert DigitsValue(s) == 10 * DigitsValue(Decimal(n / 10)) + DigitValue(s[|s| - 1]);
      assert DigitsValue(Decimal(n / 10)) == n / 10;
    }
  }
}
