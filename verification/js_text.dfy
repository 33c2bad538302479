/**
 The fragments of JavaScript string semantics that the QR payload parser relies on:
 `String.prototype.split` with a one-character and with a multi-character separator,
 `includes`, `trim`, `replace(/\s+/g, "-")`, `toLowerCase` and `Number.parseInt`,
 and the conversion of a value to a property key. Each is defined once here.
 `Split`, `IndexOf`, `SecondPiece`, `Trim` and `Lower` carry contracts that pin
 their results down; `ReplaceWhitespaceRuns` is pinned down by its contract together
 with `ReplaceWhitespaceRunsSplits`; `ParseInt` has no contract of its own and is
 described by the lemmas `ParseIntReadsDecimal` (decimal numerals) and
 `ParseIntNaN` (text that does not start with a number).
 */
module JsText {
  import opened Wrappers

  // ---------------------------------------------------------------------------
  // Whitespace
  // ---------------------------------------------------------------------------

  /** The ECMAScript WhiteSpace and LineTerminator code points: exactly the set that
      `trim` strips and that the regular-expression class `\s` matches. */
  predicate IsWhitespace(c: char) {
    c in SingleSpaces || '\U{2000}' <= c <= '\U{200A}'
  }

  /** The whitespace code points outside the range U+2000..U+200A. */
  const SingleSpaces: set<char> :=
    {'\t', '\n', '\U{B}', '\U{C}', '\r', ' ', '\U{A0}', '\U{1680}',
     '\U{2028}', '\U{2029}', '\U{202F}', '\U{205F}', '\U{3000}', '\U{FEFF}'}

  predicate AllWhitespace(s: string) {
    forall i :: 0 <= i < |s| ==> IsWhitespace(s[i])
  }

  predicate NoWhitespace(s: string) {
    forall i :: 0 <= i < |s| ==> !IsWhitespace(s[i])
  }

  /** The length of the whitespace run at the start of `s`. */
  function LeadingSpaces(s: string): (n: nat)
    ensures n <= |s|
    ensures forall k :: 0 <= k < n ==> IsWhitespace(s[k])
    ensures n < |s| ==> !IsWhitespace(s[n])
    decreases |s|
  {
    if |s| > 0 && IsWhitespace(s[0]) then 1 + LeadingSpaces(s[1..]) else 0
  }

  /** The length of the whitespace run at the end of `s`. */
  function TrailingSpaces(s: string): (n: nat)
    ensures n <= |s|
    ensures forall k :: |s| - n <= k < |s| ==> IsWhitespace(s[k])
    ensures n < |s| ==> !IsWhitespace(s[|s| - 1 - n])
    decreases |s|
  {
    if |s| > 0 && IsWhitespace(s[|s| - 1]) then 1 + TrailingSpaces(s[..|s| - 1]) else 0
  }

  /** `String.prototype.trimStart`: drops the leading whitespace run. */
  function TrimStart(s: string): (r: string)
    ensures |r| <= |s| && r == s[|s| - |r|..]
    ensures AllWhitespace(s[..|s| - |r|])
    ensures |r| == 0 || !IsWhitespace(r[0])
  {
    s[LeadingSpaces(s)..]
  }

  /** `String.prototype.trimEnd`: drops the trailing whitespace run. */
  function TrimEnd(s: string): (r: string)
    ensures |r| <= |s| && r == s[..|r|]
    ensures AllWhitespace(s[|r|..])
    ensures |r| == 0 || !IsWhitespace(r[|r| - 1])
  {
    s[..|s| - TrailingSpaces(s)]
  }

  /** `String.prototype.trim`: the result is the slice of `s` that is left once the
      whitespace runs at both ends are removed, and it neither starts nor ends with
      whitespace. */
  function Trim(s: string): (r: string)
    ensures var i := |s| - |TrimStart(s)|;
            && i + |r| <= |s|
            && r == s[i..i + |r|]
            && AllWhitespace(s[..i])
            && AllWhitespace(s[i + |r|..])
    ensures |r| == 0 || (!IsWhitespace(r[0]) && !IsWhitespace(r[|r| - 1]))
  {
    var i := LeadingSpaces(s);
    var j := TrailingSpaces(s[i..]);
    SuffixSlices(s, i, |s| - i - j);
    assert |s| - i - j > 0 ==> s[i] == s[i..][0];
    TrimEnd(TrimStart(s))
  }

  /** Slicing a suffix of `s` is slicing `s` itself. */
  lemma SuffixSlices(s: string, i: nat, n: nat)
    requires i + n <= |s|
    ensures s[i..][..n] == s[i..i + n]
    ensures s[i..][n..] == s[i + n..]
  {
  }

  // ---------------------------------------------------------------------------
  // Splitting on a one-character separator
  // ---------------------------------------------------------------------------

  /** Concatenates `parts` with `sep` between neighbours: `Array.prototype.join`. */
  function Join(parts: seq<string>, sep: char): string
    requires |parts| >= 1
    decreases |parts|
  {
    if |parts| == 1 then parts[0] else parts[0] + [sep] + Join(parts[1..], sep)
  }

  /** `String.prototype.split` with a one-character separator: always at least one
      piece, no piece contains the separator, and joining the pieces back with the
      separator gives the original text. */
  function Split(s: string, sep: char): (parts: seq<string>)
    ensures |parts| >= 1
    ensures forall i :: 0 <= i < |parts| ==> sep !in parts[i]
    ensures Join(parts, sep) == s
    decreases |s|
  {
    if |s| == 0 then [""]
    else if s[0] == sep then
      var rest := Split(s[1..], sep);
      assert ([""] + rest)[1..] == rest;
      assert s == [sep] + s[1..];
      [""] + rest
    else
      var rest := Split(s[1..], sep);
      var parts := [[s[0]] + rest[0]] + rest[1..];
      assert parts[1..] == rest[1..];
      assert Join(parts, sep) == [s[0]] + Join(rest, sep) by {
        if |rest| > 1 {
          assert Join(rest, sep) == rest[0] + [sep] + Join(rest[1..], sep);
        }
      }
      assert s == [s[0]] + s[1..];
      parts
  }

  /** A piece without the separator is split off intact. */
  lemma {:induction false} SplitAtFirstSeparator(a: string, sep: char, b: string)
    requires sep !in a
    ensures Split(a + [sep] + b, sep) == [a] + Split(b, sep)
    ensures Split(a, sep) == [a]
    decreases |a|
  {
    if |a| > 0 {
      assert (a + [sep] + b)[1..] == a[1..] + [sep] + b;
      SplitAtFirstSeparator(a[1..], sep, b);
      assert a == [a[0]] + a[1..];
    } else {
      assert a + [sep] + b == [sep] + b;
    }
  }

  /** The other half of the round trip: splitting pieces that were joined with a
      separator they do not contain gives the pieces back. */
  lemma {:induction false} SplitJoin(parts: seq<string>, sep: char)
    requires |parts| >= 1
    requires forall i :: 0 <= i < |parts| ==> sep !in parts[i]
    ensures Split(Join(parts, sep), sep) == parts
    decreases |parts|
  {
    SplitAtFirstSeparator(parts[0], sep, "");
    if |parts| > 1 {
      SplitJoin(parts[1..], sep);
      SplitAtFirstSeparator(parts[0], sep, Join(parts[1..], sep));
      assert parts == [parts[0]] + parts[1..];
    }
  }

  // ---------------------------------------------------------------------------
  // Searching for a multi-character label
  // ---------------------------------------------------------------------------

  /** `p` occurs in `s` starting at index `j`. */
  predicate OccursAt(s: string, p: string, j: int) {
    0 <= j && j + |p| <= |s| && s[j..j + |p|] == p
  }

  /** The first occurrence of `p` in `s` at or after `from`. */
  function IndexFrom(s: string, p: string, from: nat): (r: Option<nat>)
    ensures r.Some? ==> from <= r.value && OccursAt(s, p, r.value)
    ensures r.Some? ==> forall j :: from <= j < r.value ==> !OccursAt(s, p, j)
    ensures r.None? ==> forall j :: from <= j ==> !OccursAt(s, p, j)
    decreases |s| + 1 - from
  {
    if from + |p| > |s| then None
    else if s[from..from + |p|] == p then Some(from)
    else IndexFrom(s, p, from + 1)
  }

  /** `String.prototype.indexOf`: the first occurrence of `p` in `s`, or `None`. */
  function IndexOf(s: string, p: string): (r: Option<nat>)
    ensures r.Some? ==> OccursAt(s, p, r.value)
    ensures r.Some? ==> forall j :: 0 <= j < r.value ==> !OccursAt(s, p, j)
    ensures r.None? ==> forall j :: 0 <= j ==> !OccursAt(s, p, j)
  {
    IndexFrom(s, p, 0)
  }

  /** `String.prototype.includes`. */
  predicate Includes(s: string, p: string) {
    IndexOf(s, p).Some?
  }

  /** `s.split(p)[1]` for a non-empty `p` that occurs in `s`: the text that starts just
      after the first occurrence of `p` and runs up to the next occurrence of `p`
      that starts at or after that point, or to the end of `s`. It never contains
      `p` itself. */
  function SecondPiece(s: string, p: string): (r: string)
    requires |p| > 0 && Includes(s, p)
    ensures var start := IndexOf(s, p).value + |p|;
            && start + |r| <= |s|
            && r == s[start..start + |r|]
            && (start + |r| == |s| || OccursAt(s, p, start + |r|))
            && (forall j :: start <= j < start + |r| ==> !OccursAt(s, p, j))
    ensures !Includes(r, p)
  {
    var start := IndexOf(s, p).value + |p|;
    var rest := s[start..];
    match IndexOf(rest, p)
    case None =>
      NoOccurrenceInGap(s, start, p, |s|);
      rest
    case Some(j) =>
      OccursShifted(s, start, p, j);
      NoOccurrenceInGap(s, start, p, start + j);
      NoOccurrenceBeforeFirst(rest, p, j);
      rest[..j]
  }

  /** An occurrence in a suffix of `s` is an occurrence in `s`, shifted, and back. */
  lemma OccursShifted(s: string, start: nat, p: string, j: nat)
    requires start <= |s|
    ensures OccursAt(s[start..], p, j) <==> OccursAt(s, p, start + j)
  {
    if start + j + |p| <= |s| {
      assert s[start + j..start + j + |p|] == s[start..][j..j + |p|];
    }
  }

  /** No occurrence in the suffix before `end - start` means none in `s` between
      `start` and `end`. */
  lemma NoOccurrenceInGap(s: string, start: nat, p: string, end: nat)
    requires start <= end && start <= |s|
    requires forall m :: 0 <= m < end - start ==> !OccursAt(s[start..], p, m)
    ensures forall j :: start <= j < end ==> !OccursAt(s, p, j)
  {
    forall j | start <= j < end
      ensures !OccursAt(s, p, j)
    {
      OccursShifted(s, start, p, j - start);
    }
  }

  /** The text before the first occurrence of `p` does not contain `p`. */
  lemma NoOccurrenceBeforeFirst(s: string, p: string, j: nat)
    requires |p| > 0 && IndexOf(s, p) == Some(j)
    ensures !Includes(s[..j], p)
  {
    var r := s[..j];
    forall m | 0 <= m
      ensures !OccursAt(r, p, m)
    {
      if m + |p| <= |r| {
        assert r[m..m + |p|] == s[m..m + |p|];
        assert m < j && !OccursAt(s, p, m);
      }
    }
  }

  // ---------------------------------------------------------------------------
  // Replacing whitespace runs
  // ---------------------------------------------------------------------------

  /** The characters of `s` other than whitespace and '-', in order. */
  function Significant(s: string): string
    decreases |s|
  {
    if |s| == 0 then ""
    else (if IsWhitespace(s[0]) || s[0] == '-' then "" else [s[0]]) + Significant(s[1..])
  }

  /** `s.replace(/\s+/g, "-")`: every maximal run of whitespace becomes one '-'. The
      result has no whitespace, keeps every other character of `s` in order, and is
      `s` itself when `s` has no whitespace. */
  function ReplaceWhitespaceRuns(s: string): (r: string)
    ensures NoWhitespace(r)
    ensures Significant(r) == Significant(s)
    ensures NoWhitespace(s) ==> r == s
    decreases |s|
  {
    if |s| == 0 then ""
    else if IsWhitespace(s[0]) then
      var rest := ReplaceWhitespaceRuns(TrimStart(s));
      SignificantSkipsWhitespace(s);
      SignificantCons('-', rest);
      ['-'] + rest
    else
      var rest := ReplaceWhitespaceRuns(s[1..]);
      SignificantCons(s[0], rest);
      SignificantCons(s[0], s[1..]);
      assert s == [s[0]] + s[1..];
      [s[0]] + rest
  }

  /** `Significant` of a string with a known first character. */
  lemma SignificantCons(c: char, t: string)
    ensures Significant([c] + t) == (if IsWhitespace(c) || c == '-' then "" else [c]) + Significant(t)
  {
    var s := [c] + t;
    assert s[0] == c && s[1..] == t;
  }

  /** A leading whitespace run contributes nothing to `Significant`. */
  lemma {:induction false} SignificantSkipsWhitespace(s: string)
    ensures Significant(TrimStart(s)) == Significant(s)
    decreases |s|
  {
    if |s| > 0 && IsWhitespace(s[0]) {
      var t := s[1..];
      SignificantSkipsWhitespace(t);
      assert TrimStart(s) == TrimStart(t);
      assert Significant(s) == Significant(t);
    }
  }

  /** The replacement is compositional: a whitespace-free prefix is kept, a following
      whitespace run becomes a single '-', and the rest is replaced on its own. With
      `ReplaceWhitespaceRuns(s) == s` for whitespace-free `s` this pins the function
      down completely. */
  lemma {:induction false} ReplaceWhitespaceRunsSplits(a: string, w: string, b: string)
    requires NoWhitespace(a)
    requires |w| > 0 && AllWhitespace(w)
    requires |b| == 0 || !IsWhitespace(b[0])
    ensures ReplaceWhitespaceRuns(a + w + b) == a + "-" + ReplaceWhitespaceRuns(b)
    decreases |a|
  {
    if |a| == 0 {
      assert a + w + b == w + b;
      ReplaceLeadingRun(w, b);
    } else {
      ReplaceWhitespaceRunsSplits(a[1..], w, b);
      ReplaceSplitsStep(a, w, b);
    }
  }

  /** One step of the induction above: a first character that is not whitespace is
      kept in front of the replacement of the remainder. */
  lemma ReplaceSplitsStep(a: string, w: string, b: string)
    requires |a| > 0 && !IsWhitespace(a[0])
    requires ReplaceWhitespaceRuns(a[1..] + w + b) == a[1..] + "-" + ReplaceWhitespaceRuns(b)
    ensures ReplaceWhitespaceRuns(a + w + b) == a + "-" + ReplaceWhitespaceRuns(b)
  {
    var t := a[1..] + w + b;
    ConsRegroups(a, w, b, "-", ReplaceWhitespaceRuns(b));
    ReplaceKeepsFirst(a[0], t);
  }

  /** Taking the first character off the front of a concatenation, both ways round. */
  lemma ConsRegroups(a: string, x: string, y: string, x': string, y': string)
    requires |a| > 0
    ensures a + x + y == [a[0]] + (a[1..] + x + y)
    ensures [a[0]] + (a[1..] + x' + y') == a + x' + y'
  {
  }

  /** A character that is not whitespace is kept as it is. */
  lemma ReplaceKeepsFirst(c: char, t: string)
    requires !IsWhitespace(c)
    ensures ReplaceWhitespaceRuns([c] + t) == [c] + ReplaceWhitespaceRuns(t)
  {
    var s := [c] + t;
    assert s[0] == c && s[1..] == t;
  }

  /** A leading whitespace run becomes a single '-'. */
  lemma ReplaceLeadingRun(w: string, b: string)
    requires |w| > 0 && AllWhitespace(w)
    requires |b| == 0 || !IsWhitespace(b[0])
    ensures ReplaceWhitespaceRuns(w + b) == "-" + ReplaceWhitespaceRuns(b)
  {
    var s := w + b;
    assert s[0] == w[0];
    TrimStartDropsRun(w, b);
  }

  lemma {:induction false} TrimStartDropsRun(w: string, b: string)
    requires AllWhitespace(w)
    requires |b| == 0 || !IsWhitespace(b[0])
    ensures TrimStart(w + b) == b
    decreases |w|
  {
    if |w| > 0 {
      assert (w + b)[1..] == w[1..] + b;
      TrimStartDropsRun(w[1..], b);
    } else {
      assert w + b == b;
    }
  }

  // ---------------------------------------------------------------------------
  // Lower-casing
  // ---------------------------------------------------------------------------

  /** The capital letters whose lower-case form the model knows: A-Z and the Latin-1
      capitals U+00C0..U+00DE except the multiplication sign U+00D7. */
  predicate IsUpper(c: char) {
    ('A' <= c <= 'Z') || ('\U{C0}' <= c <= '\U{DE}' && c != '\U{D7}')
  }

  /** The lower-case form of one character: in both ranges above it lies 32 code
      points further on. */
  function LowerChar(c: char): (r: char)
    ensures !IsUpper(r)
    ensures !IsUpper(c) ==> r == c
    ensures IsWhitespace(r) <==> IsWhitespace(c)
  {
    if IsUpper(c) then (c as int + 32) as char else c
  }

  predicate NoUpper(s: string) {
    forall i :: 0 <= i < |s| ==> !IsUpper(s[i])
  }

  /** `String.prototype.toLowerCase`: maps every character with `LowerChar`, so the
      result has the same length and no capitals, and is `s` itself when `s` has none. */
  function Lower(s: string): (r: string)
    ensures |r| == |s|
    ensures forall i :: 0 <= i < |s| ==> r[i] == LowerChar(s[i])
    ensures NoUpper(r)
    ensures NoUpper(s) ==> r == s
  {
    seq(|s|, i requires 0 <= i < |s| => LowerChar(s[i]))
  }

  // ---------------------------------------------------------------------------
  // Number.parseInt
  // ---------------------------------------------------------------------------

  /** A JavaScript number produced by `parseInt`: an integer or `NaN`. */
  datatype ParsedInt = Num(n: int) | NaN

  /** The value of `c` as a digit in bases up to 36, if it is one. */
  function DigitOf(c: char): Option<nat> {
    if '0' <= c <= '9' then Some(c as int - '0' as int)
    else if 'a' <= c <= 'z' then Some(c as int - 'a' as int + 10)
    else if 'A' <= c <= 'Z' then Some(c as int - 'A' as int + 10)
    else None
  }

  predicate IsDigit(c: char, radix: nat) {
    DigitOf(c).Some? && DigitOf(c).value < radix
  }

  /** The length of the longest prefix of `s` made of digits of `radix`. */
  function LeadingDigits(s: string, radix: nat): (n: nat)
    ensures n <= |s|
    ensures forall i :: 0 <= i < n ==> IsDigit(s[i], radix)
    ensures n < |s| ==> !IsDigit(s[n], radix)
    decreases |s|
  {
    if |s| > 0 && IsDigit(s[0], radix) then 1 + LeadingDigits(s[1..], radix) else 0
  }

  /** The value of a digit string in `radix`, most significant digit first. */
  function DigitsValue(s: string, radix: nat): nat
    decreases |s|
  {
    if |s| == 0 then 0
    else
      var high := DigitsValue(s[..|s| - 1], radix);
      var last := DigitOf(s[|s| - 1]).GetOr(0);
      MulNat(high, radix) + last
  }

  /** A product of naturals, kept behind a name so that unfolding `DigitsValue` does
      not set off nonlinear arithmetic. */
  function MulNat(a: nat, b: nat): nat {
    a * b
  }

  /** The unsigned part of `parseInt`: a "0x"/"0X" prefix selects base 16, anything
      else base 10, and the value is that of the longest run of digits of the base
      that follows; no digits at all gives `None`. */
  function ParseMagnitude(u: string): Option<nat> {
    var hex := |u| >= 2 && u[0] == '0' && (u[1] == 'x' || u[1] == 'X');
    var radix := if hex then 16 else 10;
    var body := if hex then u[2..] else u;
    var n := LeadingDigits(body, radix);
    if n == 0 then None else Some(DigitsValue(body[..n], radix))
  }

  /** `Number.parseInt(s)` with no radix argument: skip leading whitespace, take an
      optional sign, then read the magnitude; no digits at all gives `NaN`. */
  function ParseInt(s: string): ParsedInt {
    ParseSigned(TrimStart(s))
  }

  /** The part of `parseInt` after the leading whitespace: an optional sign, then the
      magnitude. */
  function ParseSigned(t: string): ParsedInt {
    var negative := |t| > 0 && t[0] == '-';
    var u := if |t| > 0 && (t[0] == '-' || t[0] == '+') then t[1..] else t;
    match ParseMagnitude(u)
    case None => NaN
    case Some(m) => Num(if negative then -(m as int) else m)
  }

  /** The decimal numeral of `n`, without leading zeros: the reference against which
      `ParseInt` is checked. */
  function DecimalText(n: nat): (r: string)
    ensures |r| >= 1
    ensures forall i :: 0 <= i < |r| ==> '0' <= r[i] <= '9'
    ensures r[0] == '0' ==> n == 0
    decreases n
  {
    var d := ['0' + (n % 10) as char];
    if n < 10 then d else DecimalText(n / 10) + d
  }

  /** The decimal numeral of `i`, with a '-' in front when negative. */
  function IntText(i: int): string {
    if i < 0 then "-" + DecimalText(-i) else DecimalText(i)
  }

  lemma {:induction false} DecimalTextValue(n: nat)
    ensures forall i :: 0 <= i < |DecimalText(n)| ==> IsDigit(DecimalText(n)[i], 10)
    ensures DigitsValue(DecimalText(n), 10) == n
    decreases n
  {
    var t := DecimalText(n);
    if n >= 10 {
      DecimalTextValue(n / 10);
      assert t[..|t| - 1] == DecimalText(n / 10);
    }
  }

  lemma {:induction false} LeadingDigitsOfPrefix(a: string, rest: string, radix: nat)
    requires forall i :: 0 <= i < |a| ==> IsDigit(a[i], radix)
    requires |rest| == 0 || !IsDigit(rest[0], radix)
    ensures LeadingDigits(a + rest, radix) == |a|
    decreases |a|
  {
    if |a| > 0 {
      assert (a + rest)[1..] == a[1..] + rest;
      LeadingDigitsOfPrefix(a[1..], rest, radix);
    } else {
      assert a + rest == rest;
    }
  }

  /** `parseInt` reads back the decimal numeral of any integer, whatever non-digit text
      follows it; the one exception is the numeral "0" followed by 'x' or 'X', which
      `parseInt` reads as a hexadecimal prefix. */
  lemma ParseIntReadsDecimal(i: int, rest: string)
    requires |rest| == 0 || !IsDigit(rest[0], 10)
    requires i == 0 && |rest| > 0 ==> rest[0] != 'x' && rest[0] != 'X'
    ensures ParseInt(IntText(i) + rest) == Num(i)
  {
    var m: nat := if i < 0 then -i else i;
    var d := DecimalText(m);
    MagnitudeReadsDecimal(m, rest);
    ParseIntSignedText(i, d, rest);
    assert IntText(i) == (if i < 0 then "-" + d else d);
  }

  /** The sign step of `parseInt` on a numeral `d` followed by `rest`. */
  lemma ParseIntSignedText(i: int, d: string, rest: string)
    requires |d| > 0 && '0' <= d[0] <= '9'
    requires ParseMagnitude(d + rest) == Some(if i < 0 then -i else i)
    ensures ParseInt((if i < 0 then "-" + d else d) + rest) == Num(i)
  {
    var u := d + rest;
    if i < 0 {
      assert ("-" + d) + rest == "-" + u;
      ParseIntNegative(u);
    } else {
      ParseIntUnsigned(u);
    }
  }

  /** Text that starts with a sign or a digit has no leading whitespace to skip. */
  lemma TrimStartKeepsSignOrDigit(s: string)
    requires |s| > 0 && (s[0] == '-' || '0' <= s[0] <= '9')
    ensures TrimStart(s) == s
  {
    assert !IsWhitespace(s[0]);
  }

  /** Text starting with a digit is read as its magnitude. */
  lemma ParseIntUnsigned(u: string)
    requires |u| > 0 && '0' <= u[0] <= '9'
    requires ParseMagnitude(u).Some?
    ensures ParseInt(u) == Num(ParseMagnitude(u).value)
  {
    assert ParseInt(u) == ParseSigned(u) by {
      TrimStartKeepsSignOrDigit(u);
    }
  }

  /** Text made of a '-' and then a digit is read as the negated magnitude. */
  lemma ParseIntNegative(u: string)
    requires |u| > 0 && '0' <= u[0] <= '9'
    requires ParseMagnitude(u).Some?
    ensures ParseInt("-" + u) == Num(-(ParseMagnitude(u).value as int))
  {
    var s := "-" + u;
    assert ParseInt(s) == ParseSigned(s) by {
      TrimStartKeepsSignOrDigit(s);
    }
    assert s[0] == '-' && s[1..] == u;
  }

  lemma MagnitudeReadsDecimal(m: nat, rest: string)
    requires |rest| == 0 || !IsDigit(rest[0], 10)
    requires m == 0 && |rest| > 0 ==> rest[0] != 'x' && rest[0] != 'X'
    ensures ParseMagnitude(DecimalText(m) + rest) == Some(m)
  {
    var d := DecimalText(m);
    var u := d + rest;
    DecimalTextValue(m);
    LeadingDigitsOfPrefix(d, rest, 10);
    assert !(|u| >= 2 && u[0] == '0' && (u[1] == 'x' || u[1] == 'X')) by {
      if |u| >= 2 && u[0] == '0' {
        assert m == 0 && |d| == 1;
        assert u[1] == rest[0];
      }
    }
    assert u[..|d|] == d;
  }

  /** Text that starts with neither a sign nor a decimal digit parses to `NaN`. */
  lemma ParseIntNaN(s: string)
    requires |TrimStart(s)| == 0 || (!IsDigit(TrimStart(s)[0], 10) && TrimStart(s)[0] != '-' && TrimStart(s)[0] != '+')
    ensures ParseInt(s) == NaN
  {
  }

  // ---------------------------------------------------------------------------
  // Property keys
  // ---------------------------------------------------------------------------

  /** A JavaScript value used to index an object: `undefined`, `null` or a string.
      Other kinds of value are not modelled as keys. */
  datatype KeyValue = Undefined | Null | Str(text: string)

  /** The property key `o[v]` looks up: a string is its own key, and `undefined` and
      `null` are converted to the strings "undefined" and "null". */
  function PropertyKey(v: KeyValue): string {
    match v
    case Undefined => "undefined"
    case Null => "null"
    case Str(t) => t
  }

  /** `undefined` and `null` index different properties, and each shares its
      property with the string that spells it. */
  lemma PropertyKeyConversions()
    ensures PropertyKey(Null) != PropertyKey(Undefined)
    ensures PropertyKey(Null) == PropertyKey(Str("null"))
    ensures PropertyKey(Undefined) == PropertyKey(Str("undefined"))
  {
  }
}
