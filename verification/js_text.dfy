/** The handful of JavaScript string operations the row processor relies on:
    `toLowerCase`, `includes`, `split` with a one-character separator, `trim`
    and `parseInt`, written out as functions on `string` (a sequence of
    UTF-16 code units in the source, of characters here). */
module JsText {

  /** ECMAScript WhiteSpace and LineTerminator code points: what `trim`
      strips and what `parseInt` skips before the number. */
  predicate IsSpace(c: char) {
    c == '\t' || c == '\n' || c == '\U{000B}' || c == '\U{000C}' || c == '\r' || c == ' '
    || c == '\U{00A0}' || c == '\U{1680}' || '\U{2000}' <= c <= '\U{200A}'
    || c == '\U{2028}' || c == '\U{2029}' || c == '\U{202F}' || c == '\U{205F}'
    || c == '\U{3000}' || c == '\U{FEFF}'
  }

  predicate AllSpace(s: string) {
    forall i :: 0 <= i < |s| ==> IsSpace(s[i])
  }

  // ---------------------------------------------------------------- lower case

  function LowerChar(c: char): char {
    if 'A' <= c <= 'Z' then (c as int + 32) as char else c
  }

  /** `String.prototype.toLowerCase`, on the ASCII letters. */
  function Lower(s: string): string {
    seq(|s|, i requires 0 <= i < |s| => LowerChar(s[i]))
  }

  /** Lowering twice is lowering once, and no upper-case ASCII letter survives. */
  lemma LowerIsIdempotent(s: string)
    ensures Lower(Lower(s)) == Lower(s)
    ensures forall i :: 0 <= i < |s| ==> !('A' <= Lower(s)[i] <= 'Z')
  {
  }

  // ---------------------------------------------------------------- includes

  predicate OccursAt(s: string, sub: string, i: nat) {
    i + |sub| <= |s| && s[i..i + |sub|] == sub
  }

  /** `String.prototype.includes`. */
  predicate Contains(s: string, sub: string) {
    exists i: nat | i <= |s| :: OccursAt(s, sub, i)
  }

  // ---------------------------------------------------------------- split

  /** `String.prototype.split(sep)` for a one-character separator: the pieces
      between consecutive separators, in order, always at least one. */
  function Split(s: string, sep: char): (parts: seq<string>)
    ensures |parts| >= 1
    decreases |s|
  {
    if |s| == 0 then [""]
    else
      var rest := Split(s[1..], sep);
      if s[0] == sep then [""] + rest else [[s[0]] + rest[0]] + rest[1..]
  }

  /** `Array.prototype.join(sep)`. */
  function Join(parts: seq<string>, sep: char): string
    requires |parts| >= 1
    decreases |parts|
  {
    if |parts| == 1 then parts[0] else parts[0] + [sep] + Join(parts[1..], sep)
  }

  /** Joining the pieces back with the separator gives the original string. */
  lemma {:induction false} JoinSplit(s: string, sep: char)
    ensures Join(Split(s, sep), sep) == s
    decreases |s|
  {
    if |s| > 0 {
      JoinSplit(s[1..], sep);
      var rest := Split(s[1..], sep);
      if s[0] == sep {
        var parts := [""] + rest;
        assert parts[1..] == rest;
        assert Join(parts, sep) == "" + [sep] + Join(rest, sep);
        assert s == [s[0]] + s[1..];
      } else {
        var parts := [[s[0]] + rest[0]] + rest[1..];
        if |rest| == 1 {
          assert Join(parts, sep) == [s[0]] + rest[0];
          assert s == [s[0]] + s[1..];
        } else {
          assert parts[1..] == rest[1..];
          assert Join(rest, sep) == rest[0] + [sep] + Join(rest[1..], sep);
          assert Join(parts, sep) == [s[0]] + rest[0] + [sep] + Join(rest[1..], sep);
          assert s == [s[0]] + s[1..];
        }
      }
    }
  }

  /** No piece contains the separator. */
  lemma {:induction false} SplitPiecesAvoidSep(s: string, sep: char)
    ensures forall k :: 0 <= k < |Split(s, sep)| ==> sep !in Split(s, sep)[k]
    decreases |s|
  {
    if |s| > 0 {
      SplitPiecesAvoidSep(s[1..], sep);
      var rest := Split(s[1..], sep);
      if s[0] != sep {
        assert sep !in rest[0];
        assert sep !in [s[0]] + rest[0];
      }
    }
  }

  /** The first piece is the longest prefix free of the separator: either the
      whole string, or followed by a separator. The string splits in two or
      more pieces exactly when the separator occurs in it. */
  lemma SplitHead(s: string, sep: char)
    ensures var head := Split(s, sep)[0];
      && |head| <= |s| && head == s[..|head|]
      && sep !in head
      && (|Split(s, sep)| == 1 <==> sep !in s)
      && (sep in s ==> |head| < |s| && s[|head|] == sep)
      && (sep !in s ==> head == s)
  {
    var parts := Split(s, sep);
    JoinSplit(s, sep);
    SplitPiecesAvoidSep(s, sep);
    if |parts| == 1 {
      assert s == parts[0];
    } else {
      assert s == parts[0] + [sep] + Join(parts[1..], sep);
      assert sep in s;
      assert s[|parts[0]|] == sep;
    }
  }

  // ---------------------------------------------------------------- trim

  /** `String.prototype.trimStart`: drops the leading white space. */
  function TrimStart(s: string): (r: string)
    ensures |r| <= |s| && r == s[|s| - |r|..]
    ensures AllSpace(s[..|s| - |r|])
    ensures r == [] || !IsSpace(r[0])
    decreases |s|
  {
    if |s| > 0 && IsSpace(s[0]) then
      var r := TrimStart(s[1..]);
      var k := |s| - |r|;
      assert s[..k] == [s[0]] + s[1..][..k - 1];
      assert s[k..] == s[1..][k - 1..];
      AllSpaceAppend([s[0]], s[1..][..k - 1]);
      r
    else s
  }

  /** `String.prototype.trimEnd`: drops the trailing white space. */
  function TrimEnd(s: string): (r: string)
    ensures |r| <= |s| && r == s[..|r|]
    ensures AllSpace(s[|r|..])
    ensures r == [] || !IsSpace(r[|r| - 1])
    decreases |s|
  {
    if |s| > 0 && IsSpace(s[|s| - 1]) then
      var r := TrimEnd(s[..|s| - 1]);
      assert s[|r|..] == s[..|s| - 1][|r|..] + [s[|s| - 1]];
      AllSpaceAppend(s[..|s| - 1][|r|..], [s[|s| - 1]]);
      r
    else s
  }

  /** White space followed by white space is white space. */
  lemma AllSpaceAppend(a: string, b: string)
    requires AllSpace(a) && AllSpace(b)
    ensures AllSpace(a + b)
  {
    forall i | 0 <= i < |a + b| ensures IsSpace((a + b)[i]) {
      if i < |a| {
        assert (a + b)[i] == a[i];
      } else {
        assert (a + b)[i] == b[i - |a|];
      }
    }
  }

  /** `String.prototype.trim`: the string between its leading and trailing
      white space, neither end of which is white space. */
  function Trim(s: string): (r: string)
    ensures r == [] || (!IsSpace(r[0]) && !IsSpace(r[|r| - 1]))
  {
    TrimEnd(TrimStart(s))
  }

  /** What `trim` removes is white space on either side of a contiguous
      slice. */
  lemma TrimIsSlice(s: string)
    ensures exists i, j :: 0 <= i <= j <= |s| && Trim(s) == s[i..j] && AllSpace(s[..i]) && AllSpace(s[j..])
  {
    TrimSlice(s, TrimStart(s), Trim(s));
  }

  /** Trimming the front and then the back of `s` leaves a slice of `s`
      with only white space around it. */
  lemma TrimSlice(s: string, t: string, r: string)
    requires |t| <= |s| && t == s[|s| - |t|..] && AllSpace(s[..|s| - |t|])
    requires |r| <= |t| && r == t[..|r|] && AllSpace(t[|r|..])
    ensures exists i, j :: 0 <= i <= j <= |s| && r == s[i..j] && AllSpace(s[..i]) && AllSpace(s[j..])
  {
    var i, j := |s| - |t|, |s| - |t| + |r|;
    assert s[i..j] == t[..|r|];
    assert s[j..] == t[|r|..];
    assert r == s[i..j] && AllSpace(s[..i]) && AllSpace(s[j..]);
  }

  // ---------------------------------------------------------------- parseInt

  /** A JavaScript number as `parseInt` produces it: not-a-number, or an
      integer. */
  datatype Num = NaN | Int(value: int)

  /** The value of a digit in radix 36; 36 for anything that is not one. */
  function DigitValue(c: char): nat {
    if '0' <= c <= '9' then c as int - '0' as int
    else if 'a' <= c <= 'z' then c as int - 'a' as int + 10
    else if 'A' <= c <= 'Z' then c as int - 'A' as int + 10
    else 36
  }

  predicate IsDigitIn(c: char, radix: nat) {
    DigitValue(c) < radix
  }

  predicate AllDecimal(s: string) {
    forall i :: 0 <= i < |s| ==> '0' <= s[i] <= '9'
  }

  /** The longest prefix of `s` made of digits of `radix`. */
  function DigitPrefix(s: string, radix: nat): (z: string)
    ensures |z| <= |s| && z == s[..|z|]
    ensures forall k :: 0 <= k < |z| ==> IsDigitIn(z[k], radix)
    ensures |z| == |s| || !IsDigitIn(s[|z|], radix)
    decreases |s|
  {
    if |s| > 0 && IsDigitIn(s[0], radix) then
      var rest := DigitPrefix(s[1..], radix);
      assert s[..|rest| + 1] == [s[0]] + s[1..][..|rest|];
      [s[0]] + rest
    else []
  }

  /** The number a digit string denotes in `radix`, most significant digit first. */
  function DigitsValue(z: string, radix: nat): nat
    decreases |z|
  {
    if |z| == 0 then 0 else DigitsValue(z[..|z| - 1], radix) * radix + DigitValue(z[|z| - 1])
  }

  /** `parseInt(s)` with no radix: skip leading white space, take an optional
      sign, read radix 16 after a `0x`/`0X` prefix and radix 10 otherwise, and
      convert the longest run of digits; no digit at all gives NaN. */
  function ParseInt(s: string): Num {
    var t := TrimStart(s);
    var negative := |t| > 0 && t[0] == '-';
    var u := if |t| > 0 && (t[0] == '-' || t[0] == '+') then t[1..] else t;
    var hex := |u| >= 2 && u[0] == '0' && (u[1] == 'x' || u[1] == 'X');
    var radix := if hex then 16 else 10;
    var z := DigitPrefix(if hex then u[2..] else u, radix);
    if |z| == 0 then NaN
    else if negative then Int(-(DigitsValue(z, radix) as int))
    else Int(DigitsValue(z, radix))
  }

  /** A size cell made only of decimal digits parses to its decimal value. */
  lemma ParseIntOfDigits(s: string)
    requires |s| > 0 && AllDecimal(s)
    ensures ParseInt(s) == Int(DigitsValue(s, 10))
  {
    assert !IsSpace(s[0]);
    assert TrimStart(s) == s;
    assert !(s[0] == '-' || s[0] == '+');
    assert !(|s| >= 2 && (s[1] == 'x' || s[1] == 'X'));
    AllDecimalIsDigitPrefix(s);
  }

  lemma AllDecimalIsDigitPrefix(s: string)
    requires AllDecimal(s)
    ensures DigitPrefix(s, 10) == s
  {
    var z := DigitPrefix(s, 10);
    if |z| < |s| {
      assert IsDigitIn(s[|z|], 10);
    }
  }

  /** A string without a single decimal digit is not a number to `parseInt`. */
  lemma ParseIntWithoutDigits(s: string)
    requires forall i :: 0 <= i < |s| ==> !('0' <= s[i] <= '9')
    ensures ParseInt(s) == NaN
  {
    var t := TrimStart(s);
    var u := if |t| > 0 && (t[0] == '-' || t[0] == '+') then t[1..] else t;
    assert |u| == 0 || !('0' <= u[0] <= '9') by {
      if |u| > 0 {
        assert u[0] == s[|s| - |u|];
      }
    }
    NoLeadingDigit(u);
  }

  /** A text that does not open with a decimal digit has no decimal digit
      prefix and no `0x` prefix. */
  lemma NoLeadingDigit(u: string)
    requires |u| == 0 || !('0' <= u[0] <= '9')
    ensures DigitPrefix(u, 10) == [] && !(|u| >= 2 && u[0] == '0')
  {
    assert |u| == 0 || !IsDigitIn(u[0], 10);
  }

  /** The plain decimal digits of `n`, most significant first, with no
      leading zero. */
  function DecimalString(n: nat): (s: string)
    decreases n
  {
    if n < 10 then [('0' as int + n) as char]
    else DecimalString(n / 10) + [('0' as int + n % 10) as char]
  }

  lemma {:induction false} DecimalStringDigits(n: nat)
    ensures |DecimalString(n)| > 0 && AllDecimal(DecimalString(n))
    ensures DigitsValue(DecimalString(n), 10) == n
    decreases n
  {
    if n >= 10 {
      DecimalStringDigits(n / 10);
      var s := DecimalString(n);
      assert s[..|s| - 1] == DecimalString(n / 10);
    }
  }

  /** A fact about the model's `parseInt`: it reads back the plain decimal
      digits of every natural number, so `ParseInt` loses nothing on an
      all-digit size. */
  lemma ParseIntDecimalRoundTrip(n: nat)
    ensures ParseInt(DecimalString(n)) == Int(n)
  {
    DecimalStringDigits(n);
    ParseIntOfDigits(DecimalString(n));
  }

}
