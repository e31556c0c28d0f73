/** The JavaScript built-ins the indicator relies on, given their ECMAScript
    meaning on the values the model uses: the truncating `%` operator,
    `String.prototype.split` with a one-character separator,
    `Array.prototype.join` and the global `parseInt` (no radix argument). */
module JsBuiltins {
  import opened Wrappers

  // ---------------------------------------------------------------------
  // The `%` operator
  // ---------------------------------------------------------------------

  /** JavaScript `a % b` for a positive divisor: the quotient truncates toward
      zero, so the remainder takes the sign of the dividend (Dafny's own `%`
      is Euclidean and never negative). */
  function Rem(a: int, b: int): (r: int)
    requires b > 0
    ensures -b < r < b
    ensures a >= 0 ==> 0 <= r && r == a % b
    ensures a <= 0 ==> r <= 0
    ensures a < 0 ==> r == -((-a) % b)
  {
    if a >= 0 then a % b else -((-a) % b)
  }

  // ---------------------------------------------------------------------
  // split / join
  // ---------------------------------------------------------------------

  /** The number of occurrences of `c` in `s`. */
  function Count(s: string, c: char): (n: nat)
    ensures n == 0 <==> c !in s
    ensures n <= |s|
  {
    if s == [] then 0 else (if s[0] == c then 1 else 0) + Count(s[1..], c)
  }

  /** `s.split(sep)` for a one-character separator: the pieces between
      separators, in order, empty pieces included; `"".split(sep)` is `[""]`. */
  function Split(s: string, sep: char): (parts: seq<string>)
    ensures |parts| == Count(s, sep) + 1
    ensures forall k :: 0 <= k < |parts| ==> sep !in parts[k]
    ensures sep !in s ==> parts == [s]
  {
    if s == [] then [""]
    else
      var rest := Split(s[1..], sep);
      if s[0] == sep then [""] + rest
      else
        assert [s[0]] + s[1..] == s;
        [[s[0]] + rest[0]] + rest[1..]
  }

  /** `parts.join(sep)`: the parts with `sep` between neighbours; `[].join(sep)`
      is the empty string. */
  function Join(parts: seq<string>, sep: string): string
  {
    if |parts| == 0 then ""
    else if |parts| == 1 then parts[0]
    else parts[0] + sep + Join(parts[1..], sep)
  }

  /** Reference definition: `s` with every `c` replaced by `d`, position by
      position. */
  function ReplaceChar(s: string, c: char, d: char): (r: string)
    ensures |r| == |s|
    ensures forall k :: 0 <= k < |s| ==> r[k] == (if s[k] == c then d else s[k])
  {
    if s == [] then "" else [if s[0] == c then d else s[0]] + ReplaceChar(s[1..], c, d)
  }

  /** Prefixing the first part prefixes the joined string. */
  lemma {:induction false} JoinPrefixFirst(x: string, parts: seq<string>, sep: string)
    requires |parts| >= 1
    ensures Join([x + parts[0]] + parts[1..], sep) == x + Join(parts, sep)
  {
    var q := [x + parts[0]] + parts[1..];
    if |parts| > 1 {
      assert q[1..] == parts[1..];
      assert Join(q, sep) == (x + parts[0]) + sep + Join(parts[1..], sep);
    }
  }

  /** `s.split(c).join(d)` replaces every `c` in `s` by `d`. */
  lemma {:induction false} SplitJoinIsReplace(s: string, c: char, d: char)
    ensures Join(Split(s, c), [d]) == ReplaceChar(s, c, d)
  {
    if s != [] {
      var rest := Split(s[1..], c);
      SplitJoinIsReplace(s[1..], c, d);
      if s[0] == c {
        assert ([""] + rest)[1..] == rest;
        assert Join([""] + rest, [d]) == "" + [d] + Join(rest, [d]);
      } else {
        JoinPrefixFirst([s[0]], rest, [d]);
      }
    }
  }

  /** Splitting on `c` and joining with `c` gives the string back. */
  lemma SplitJoinRoundTrip(s: string, c: char)
    ensures Join(Split(s, c), [c]) == s
  {
    SplitJoinIsReplace(s, c, c);
    assert ReplaceChar(s, c, c) == s;
  }

  /** When `d` does not occur in `s`, splitting the replaced string on `d`
      yields the same pieces as splitting `s` on `c`. */
  lemma {:induction false} SplitAfterReplace(s: string, c: char, d: char)
    requires d !in s
    ensures Split(ReplaceChar(s, c, d), d) == Split(s, c)
  {
    if s != [] {
      var r := ReplaceChar(s, c, d);
      assert r[1..] == ReplaceChar(s[1..], c, d);
      assert s[0] != d;
      SplitAfterReplace(s[1..], c, d);
    }
  }

  /** Splitting on a separator that joins two pieces splits each piece. */
  lemma {:induction false} SplitAround(a: string, b: string, c: char)
    ensures Split(a + [c] + b, c) == Split(a, c) + Split(b, c)
  {
    if a == [] {
      assert a + [c] + b == [c] + b;
      assert ([c] + b)[1..] == b;
    } else {
      var s := a + [c] + b;
      assert s[0] == a[0];
      assert s[1..] == a[1..] + [c] + b;
      SplitAround(a[1..], b, c);
    }
  }

  /** Undoing a replacement: where `d` was absent, mapping `d` back to `c`
      restores the string. */
  lemma {:induction false} ReplaceBack(s: string, c: char, d: char)
    requires d !in s
    ensures ReplaceChar(ReplaceChar(s, c, d), d, c) == s
  {
    if s != [] {
      assert s[0] != d;
      ReplaceBack(s[1..], c, d);
      assert ReplaceChar(s, c, d)[1..] == ReplaceChar(s[1..], c, d);
    }
  }

  // ---------------------------------------------------------------------
  // parseInt
  // ---------------------------------------------------------------------

  /** The characters `parseInt` skips before the number: the ECMAScript
      WhiteSpace and LineTerminator code points. */
  predicate IsJsSpace(ch: char)
  {
    || ch == '\t' || ch == '\n' || ch == '\U{000B}' || ch == '\U{000C}' || ch == '\r'
    || ch == ' ' || ch == '\U{00A0}' || ch == '\U{1680}'
    || ('\U{2000}' <= ch <= '\U{200A}')
    || ch == '\U{2028}' || ch == '\U{2029}' || ch == '\U{202F}' || ch == '\U{205F}'
    || ch == '\U{3000}' || ch == '\U{FEFF}'
  }

  /** The number of white-space characters `s` starts with. */
  function LeadingSpaces(s: string): (n: nat)
    ensures n <= |s|
  {
    if s != [] && IsJsSpace(s[0]) then 1 + LeadingSpaces(s[1..]) else 0
  }

  /** The leading run is all white space, and it is maximal. */
  lemma {:induction false} LeadingSpacesMaximal(s: string)
    ensures forall k :: 0 <= k < LeadingSpaces(s) ==> IsJsSpace(s[k])
    ensures LeadingSpaces(s) == |s| || !IsJsSpace(s[LeadingSpaces(s)])
  {
    if s != [] && IsJsSpace(s[0]) {
      LeadingSpacesMaximal(s[1..]);
    }
  }

  predicate IsDecimalDigit(ch: char)
  {
    '0' <= ch <= '9'
  }

  /** Whether `ch` is a digit of radix 10 or 16 (either case for hex letters). */
  predicate IsDigit(ch: char, radix: nat)
  {
    if radix == 16 then IsDecimalDigit(ch) || 'a' <= ch <= 'f' || 'A' <= ch <= 'F'
    else IsDecimalDigit(ch)
  }

  /** The value of a digit (0 for a character that is none, which the parser
      never asks for). */
  function DigitOf(ch: char): nat
  {
    if IsDecimalDigit(ch) then (ch - '0') as nat
    else if 'a' <= ch <= 'f' then (ch - 'a') as nat + 10
    else if 'A' <= ch <= 'F' then (ch - 'A') as nat + 10
    else 0
  }

  /** The length of the longest prefix of `s` made of digits of `radix`. */
  function DigitPrefix(s: string, radix: nat): (n: nat)
    ensures n <= |s|
  {
    if s == [] || !IsDigit(s[0], radix) then 0 else 1 + DigitPrefix(s[1..], radix)
  }

  /** The prefix is all digits, and it is maximal. */
  lemma {:induction false} DigitPrefixMaximal(s: string, radix: nat)
    ensures forall k :: 0 <= k < DigitPrefix(s, radix) ==> IsDigit(s[k], radix)
    ensures DigitPrefix(s, radix) == |s| || !IsDigit(s[DigitPrefix(s, radix)], radix)
  {
    if s != [] && IsDigit(s[0], radix) {
      DigitPrefixMaximal(s[1..], radix);
    }
  }

  /** The value of a digit string, most significant digit first. */
  function DigitsValue(s: string, radix: nat): nat
  {
    if s == [] then 0
    else DigitsValue(s[..|s| - 1], radix) * radix + DigitOf(s[|s| - 1])
  }

  /** `parseInt(s)` with no radix: skip leading white space, take an optional
      sign, switch to radix 16 after a `0x`/`0X` prefix, and read the longest
      run of digits; `None` is `NaN` (no digit there). */
  function ParseInt(s: string): Option<int>
  {
    var t := s[LeadingSpaces(s)..];
    var negative := |t| > 0 && t[0] == '-';
    var u := if |t| > 0 && (t[0] == '-' || t[0] == '+') then t[1..] else t;
    var hex := |u| >= 2 && u[0] == '0' && (u[1] == 'x' || u[1] == 'X');
    var radix: nat := if hex then 16 else 10;
    var body := if hex then u[2..] else u;
    var z := body[..DigitPrefix(body, radix)];
    if z == [] then None
    else
      var v: int := DigitsValue(z, radix);
      Some(if negative then -v else v)
  }

  /** A string without a decimal digit parses to `NaN`. */
  lemma ParseIntNoDigit(s: string)
    requires forall k :: 0 <= k < |s| ==> !IsDecimalDigit(s[k])
    ensures ParseInt(s) == None
  {
    var t := s[LeadingSpaces(s)..];
    var u := if |t| > 0 && (t[0] == '-' || t[0] == '+') then t[1..] else t;
    assert forall k :: 0 <= k < |u| ==> !IsDigit(u[k], 10);
    assert !(|u| >= 2 && u[0] == '0');
    DigitPrefixMaximal(u, 10);
  }

  /** The decimal rendering of a natural number, with no leading zero. */
  function DecimalString(n: nat): (s: string)
    ensures |s| >= 1
    ensures forall k :: 0 <= k < |s| ==> IsDecimalDigit(s[k])
    ensures s[0] == '0' ==> n == 0
  {
    if n < 10 then ['0' + n as char]
    else DecimalString(n / 10) + ['0' + (n % 10) as char]
  }

  lemma {:induction false} DecimalValue(n: nat)
    ensures DigitsValue(DecimalString(n), 10) == n
  {
    var s := DecimalString(n);
    if n >= 10 {
      assert s[..|s| - 1] == DecimalString(n / 10);
      DecimalValue(n / 10);
    }
  }

  /** A string made only of digits is its own longest digit prefix. */
  lemma {:induction false} DigitPrefixAll(s: string, radix: nat)
    requires forall k :: 0 <= k < |s| ==> IsDigit(s[k], radix)
    ensures DigitPrefix(s, radix) == |s|
  {
    if s != [] {
      DigitPrefixAll(s[1..], radix);
    }
  }

  /** `parseInt` reads back the decimal rendering of every natural number. */
  lemma ParseIntDecimal(n: nat)
    ensures ParseInt(DecimalString(n)) == Some(n)
  {
    var s := DecimalString(n);
    assert !IsJsSpace(s[0]);
    assert LeadingSpaces(s) == 0;
    assert |s| >= 2 ==> IsDecimalDigit(s[1]);
    DigitPrefixAll(s, 10);
    assert s[..|s|] == s;
    DecimalValue(n);
  }
}
