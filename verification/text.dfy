/**
  String helpers with JavaScript's meaning: `String.prototype.split` on a
  one-character separator, `Array.prototype.join`, and the decimal rendering of
  an integer by `Number.prototype.toString` (for integral values).
 */
module Text {

  /** `s.split(sep)`: the maximal separator-free pieces, always at least one. */
  function Split(s: string, sep: char): (parts: seq<string>)
    ensures |parts| >= 1
    ensures forall p | p in parts :: sep !in p
    ensures |parts| == 1 <==> sep !in s
    decreases |s|
  {
    if |s| == 0 then [""]
    else
      var rest := Split(s[1..], sep);
      assert s == [s[0]] + s[1..];
      if s[0] == sep then [""] + rest
      else [[s[0]] + rest[0]] + rest[1..]
  }

  /** `parts.join(sep)`; the empty list joins to the empty string. */
  function Join(parts: seq<string>, sep: char): string
    decreases |parts|
  {
    if |parts| == 0 then ""
    else if |parts| == 1 then parts[0]
    else parts[0] + [sep] + Join(parts[1..], sep)
  }

  /** Splitting and re-joining on the same separator gives the string back. */
  lemma {:induction false} JoinSplit(s: string, sep: char)
    ensures Join(Split(s, sep), sep) == s
    decreases |s|
  {
    if |s| > 0 {
      JoinSplit(s[1..], sep);
      var rest := Split(s[1..], sep);
      if s[0] == sep {
        assert ([""] + rest)[1..] == rest;
      } else {
        var parts := [[s[0]] + rest[0]] + rest[1..];
        assert parts[1..] == rest[1..];
        if |rest| > 1 {
          assert Join(rest, sep) == rest[0] + [sep] + Join(rest[1..], sep);
        }
        assert s == [s[0]] + s[1..];
      }
    }
  }

  /** A character other than the separator joins the first piece. */
  lemma SplitCons(c: char, t: string, sep: char)
    requires c != sep
    ensures Split([c] + t, sep) == [[c] + Split(t, sep)[0]] + Split(t, sep)[1..]
  {
    assert ([c] + t)[1..] == t;
  }

  /** A separator-free prefix only extends the first piece. */
  lemma {:induction false} SplitPrefix(p: string, t: string, sep: char)
    requires sep !in p
    ensures Split(p + t, sep) == [p + Split(t, sep)[0]] + Split(t, sep)[1..]
    decreases |p|
  {
    if |p| > 0 {
      var r := Split(t, sep);
      SplitPrefix(p[1..], t, sep);
      var rest := Split(p[1..] + t, sep);
      assert p + t == [p[0]] + (p[1..] + t);
      SplitCons(p[0], p[1..] + t, sep);
      assert [p[0]] + rest[0] == p + r[0] by {
        assert rest[0] == p[1..] + r[0];
        assert p == [p[0]] + p[1..];
      }
    } else {
      assert p + t == t;
      assert p + Split(t, sep)[0] == Split(t, sep)[0];
    }
  }

  /** A leading separator opens an empty first piece. */
  lemma SplitAfterSep(t: string, sep: char)
    ensures Split([sep] + t, sep) == [""] + Split(t, sep)
  {
    assert ([sep] + t)[1..] == t;
  }

  /** Joining separator-free pieces and splitting again gives the pieces back. */
  lemma {:induction false} SplitJoin(parts: seq<string>, sep: char)
    requires |parts| >= 1
    requires forall i | 0 <= i < |parts| :: sep !in parts[i]
    ensures Split(Join(parts, sep), sep) == parts
    decreases |parts|
  {
    if |parts| == 1 {
      SplitPrefix(parts[0], "", sep);
      assert parts[0] + "" == parts[0];
    } else {
      var rest := Join(parts[1..], sep);
      SplitJoin(parts[1..], sep);
      var tail := [sep] + rest;
      assert Join(parts, sep) == parts[0] + tail;
      SplitAfterSep(rest, sep);
      var pieces := Split(tail, sep);
      assert pieces == [""] + parts[1..];
      SplitPrefix(parts[0], tail, sep);
      assert Split(Join(parts, sep), sep) == [parts[0] + pieces[0]] + pieces[1..];
      assert parts[0] + pieces[0] == parts[0];
      assert pieces[1..] == parts[1..];
      assert parts == [parts[0]] + parts[1..];
    }
  }

  /** The character of a decimal digit. */
  function DigitChar(d: nat): char
    requires d < 10
  {
    "0123456789"[d]
  }

  /** The value of a decimal digit character (0 for any other character). */
  function DigitValue(c: char): nat {
    if '0' <= c <= '9' then (c as int - '0' as int) else 0
  }

  predicate IsDigits(s: string) {
    forall i | 0 <= i < |s| :: '0' <= s[i] <= '9'
  }

  /** Decimal rendering of a natural number, without leading zeros. */
  function NatToString(n: nat): (s: string)
    ensures |s| >= 1 && IsDigits(s)
    decreases n
  {
    if n < 10 then [DigitChar(n)]
    else NatToString(n / 10) + [DigitChar(n % 10)]
  }

  /** Decimal rendering of an integer, `-` first when negative. */
  function IntToString(i: int): (s: string)
    ensures |s| >= 1
    ensures forall k | 0 <= k < |s| :: s[k] == '-' || '0' <= s[k] <= '9'
  {
    if i < 0 then "-" + NatToString(-i) else NatToString(i)
  }

  /** The value of a string of decimal digits. */
  function ParseDigits(s: string): nat
    decreases |s|
  {
    if |s| == 0 then 0 else ParseDigits(s[..|s| - 1]) * 10 + DigitValue(s[|s| - 1])
  }

  /** The value of an optionally negated string of decimal digits. */
  function ParseInt(s: string): int {
    if |s| > 0 && s[0] == '-' then 0 - ParseDigits(s[1..]) as int else ParseDigits(s)
  }

  lemma {:induction false} ParseNatToString(n: nat)
    ensures ParseDigits(NatToString(n)) == n
    decreases n
  {
    var s := NatToString(n);
    if n >= 10 {
      ParseNatToString(n / 10);
      assert s[..|s| - 1] == NatToString(n / 10);
    }
  }

  /** Printing an integer and parsing it back gives the integer. */
  lemma ParseIntToString(i: int)
    ensures ParseInt(IntToString(i)) == i
  {
    if i < 0 {
      ParseNatToString(-i);
      assert ("-" + NatToString(-i))[1..] == NatToString(-i);
    } else {
      ParseNatToString(i);
    }
  }

  /** A JavaScript number as `parseInt` can produce it: an integer, or `NaN`. */
  datatype ParsedInt = NotANumber | Int(value: int)

  /** The whitespace `parseInt` skips before the number (the ASCII subset). */
  predicate IsSpace(c: char) {
    c == ' ' || c == '\t' || c == '\n' || c == '\r' || c == '\U{000B}' || c == '\U{000C}'
  }

  function SkipSpaces(s: string): (t: string)
    ensures |t| <= |s|
    ensures |t| > 0 ==> !IsSpace(t[0])
    decreases |s|
  {
    if |s| > 0 && IsSpace(s[0]) then SkipSpaces(s[1..]) else s
  }

  /** The longest prefix of `s` made of decimal digits. */
  function LeadingDigits(s: string): (d: string)
    ensures |d| <= |s| && d == s[..|d|] && IsDigits(d)
    ensures |d| < |s| ==> !('0' <= s[|d|] <= '9')
    decreases |s|
  {
    if |s| > 0 && '0' <= s[0] <= '9' then [s[0]] + LeadingDigits(s[1..]) else ""
  }

  /** The longest run of leading digits as a number, or `NaN` when there is none. */
  function ReadDigits(b: string): (r: ParsedInt)
    ensures r.NotANumber? <==> |LeadingDigits(b)| == 0
  {
    var digits := LeadingDigits(b);
    if |digits| == 0 then NotANumber else Int(ParseDigits(digits))
  }

  /** Unary minus on a `parseInt` result; `-NaN` is `NaN`. */
  function Negate(p: ParsedInt): (r: ParsedInt)
    ensures r.NotANumber? <==> p.NotANumber?
  {
    match p
    case NotANumber => NotANumber
    case Int(v) => Int(0 - v)
  }

  /** An optional sign, then the leading digits. */
  function ReadSigned(t: string): ParsedInt
  {
    if |t| > 0 && t[0] == '-' then Negate(ReadDigits(t[1..]))
    else if |t| > 0 && t[0] == '+' then ReadDigits(t[1..])
    else ReadDigits(t)
  }

  /**
    `parseInt(s)` in base 10: skip leading whitespace, read an optional sign and
    the longest run of digits after it; no digits gives `NaN`, and whatever
    follows the digits is ignored.
   */
  function ParseIntPrefix(s: string): (r: ParsedInt)
    ensures r.Int? && r.value < 0 ==> |SkipSpaces(s)| > 0 && SkipSpaces(s)[0] == '-'
  {
    ReadSigned(SkipSpaces(s))
  }

  /** Skipping a run of whitespace leaves whatever follows it. */
  lemma {:induction false} SkipSpacesAfter(w: string, s: string)
    requires forall k | 0 <= k < |w| :: IsSpace(w[k])
    ensures SkipSpaces(w + s) == SkipSpaces(s)
    decreases |w|
  {
    if |w| == 0 {
      assert w + s == s;
    } else {
      assert (w + s)[0] == w[0] && (w + s)[1..] == w[1..] + s;
      SkipSpacesAfter(w[1..], s);
    }
  }

  /** Leading whitespace does not change what `parseInt` reads. */
  lemma ParseIntPrefixSkipsSpaces(w: string, s: string)
    requires forall k | 0 <= k < |w| :: IsSpace(w[k])
    ensures ParseIntPrefix(w + s) == ParseIntPrefix(s)
  {
    SkipSpacesAfter(w, s);
  }

  /** `parseInt` gives `NaN` exactly when no digit follows the leading whitespace and optional sign. */
  lemma ParseIntPrefixNaN(s: string)
    ensures ParseIntPrefix(s).NotANumber? <==>
              var t := SkipSpaces(s);
              var body := if |t| > 0 && (t[0] == '-' || t[0] == '+') then t[1..] else t;
              |LeadingDigits(body)| == 0
  {
  }

  /** A run of digits followed by a non-digit: the digits are exactly the leading ones. */
  lemma {:induction false} LeadingDigitsOf(d: string, rest: string)
    requires IsDigits(d)
    requires |rest| == 0 || !('0' <= rest[0] <= '9')
    ensures LeadingDigits(d + rest) == d
    decreases |d|
  {
    if |d| == 0 {
      assert d + rest == rest;
    } else {
      assert (d + rest)[1..] == d[1..] + rest;
      LeadingDigitsOf(d[1..], rest);
      assert d == [d[0]] + d[1..];
    }
  }

  /** The digits read from a run of digits followed by a non-digit are the whole run. */
  lemma ReadDigitsOf(d: string, rest: string)
    requires |d| >= 1 && IsDigits(d)
    requires |rest| == 0 || !('0' <= rest[0] <= '9')
    ensures ReadDigits(d + rest) == Int(ParseDigits(d))
  {
    LeadingDigitsOf(d, rest);
  }

  /** Text that starts with a digit is read from its first character. */
  lemma ParseIntPrefixAtDigit(s: string)
    requires |s| > 0 && '0' <= s[0] <= '9'
    ensures ParseIntPrefix(s) == ReadDigits(s)
  {
    assert SkipSpaces(s) == s;
  }

  /** Text that starts with `-` is read as the negation of what follows it. */
  lemma ParseIntPrefixAtMinus(s: string)
    requires |s| > 0 && s[0] == '-'
    ensures ParseIntPrefix(s) == Negate(ReadDigits(s[1..]))
  {
    assert SkipSpaces(s) == s;
  }

  /** `parseInt` of a run of digits followed by a non-digit reads the digits. */
  lemma ParseIntPrefixOfDigits(d: string, rest: string)
    requires |d| >= 1 && IsDigits(d)
    requires |rest| == 0 || !('0' <= rest[0] <= '9')
    ensures ParseIntPrefix(d + rest) == Int(ParseDigits(d))
  {
    assert (d + rest)[0] == d[0];
    ParseIntPrefixAtDigit(d + rest);
    ReadDigitsOf(d, rest);
  }

  /** `parseInt` of `-` and a run of digits followed by a non-digit reads the negated digits. */
  lemma ParseIntPrefixOfNegated(d: string, rest: string)
    requires |d| >= 1 && IsDigits(d)
    requires |rest| == 0 || !('0' <= rest[0] <= '9')
    ensures ParseIntPrefix("-" + (d + rest)) == Int(0 - ParseDigits(d))
  {
    var s := "-" + (d + rest);
    assert s[0] == '-' && s[1..] == d + rest;
    ParseIntPrefixAtMinus(s);
    ReadDigitsOf(d, rest);
  }

  /** A negative number prints as `-` and its magnitude. */
  lemma IntToStringNegative(i: int, rest: string)
    requires i < 0
    ensures IntToString(i) + rest == "-" + (NatToString(-i) + rest)
  {
    assert IntToString(i) == "-" + NatToString(-i);
  }

  /** `parseInt` reads a printed natural number back, with or without a `-` before it. */
  lemma ParseIntPrefixOfNatToString(n: nat, rest: string)
    requires |rest| == 0 || !('0' <= rest[0] <= '9')
    ensures ParseIntPrefix(NatToString(n) + rest) == Int(n)
    ensures ParseIntPrefix("-" + (NatToString(n) + rest)) == Int(0 - n)
  {
    ParseNatToString(n);
    ParseIntPrefixOfDigits(NatToString(n), rest);
    ParseIntPrefixOfNegated(NatToString(n), rest);
  }

  /**
    `parseInt` reads back what `toString` wrote, even with a non-digit tail
    after it: `parseInt("12.5")` is 12.
   */
  lemma ParseIntPrefixOfIntToString(i: int, rest: string)
    requires |rest| == 0 || !('0' <= rest[0] <= '9')
    ensures ParseIntPrefix(IntToString(i) + rest) == Int(i)
  {
    if i < 0 {
      ParseIntPrefixOfNatToString(-i, rest);
      IntToStringNegative(i, rest);
    } else {
      ParseIntPrefixOfNatToString(i, rest);
    }
  }
}
