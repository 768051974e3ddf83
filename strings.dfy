/** The few JavaScript string operations the controllers rely on: `split` on
    one character, `join`, `trim`, ASCII case mapping, `startsWith`, and
    `parseInt` with its default radix. */
module Strings {
  import opened Common

  /** JavaScript's white space and line terminators, as `trim` and `parseInt` skip them. */
  predicate IsSpace(c: char) {
    var n := c as int;
    n == 9 || n == 10 || n == 11 || n == 12 || n == 13 || n == 32 || n == 160 || n == 5760
    || (8192 <= n <= 8202) || n == 8232 || n == 8233 || n == 8239 || n == 8287
    || n == 12288 || n == 65279
  }

  predicate StartsWith(s: string, prefix: string) {
    |prefix| <= |s| && s[..|prefix|] == prefix
  }

  /** The position of the first occurrence of `c`. */
  function IndexOf(s: string, c: char): (i: nat)
    requires c in s
    ensures i < |s| && s[i] == c && c !in s[..i]
  {
    if s[0] == c then 0
    else
      var j := IndexOf(s[1..], c);
      assert s[..j + 1] == [s[0]] + s[1..][..j];
      j + 1
  }

  /** `s.split(sep)` for a one-character separator. */
  function Split(s: string, sep: char): (parts: seq<string>)
    ensures |parts| >= 1
    ensures forall k :: 0 <= k < |parts| ==> sep !in parts[k]
    decreases |s|
  {
    if sep !in s then [s]
    else
      var i := IndexOf(s, sep);
      [s[..i]] + Split(s[i + 1..], sep)
  }

  /** `parts.join(sep)`. */
  function Join(parts: seq<string>, sep: string): string
  {
    if |parts| == 0 then ""
    else if |parts| == 1 then parts[0]
    else parts[0] + sep + Join(parts[1..], sep)
  }

  /** Joining the pieces of a split gives back the string. */
  lemma {:induction false} JoinSplit(s: string, sep: char)
    ensures Join(Split(s, sep), [sep]) == s
    decreases |s|
  {
    if sep in s {
      var i := IndexOf(s, sep);
      var rest := s[i + 1..];
      var parts := [s[..i]] + Split(rest, sep);
      assert parts[1..] == Split(rest, sep);
      calc {
        Join(Split(s, sep), [sep]);
        Join(parts, [sep]);
        s[..i] + [sep] + Join(Split(rest, sep), [sep]);
        { JoinSplit(rest, sep); }
        s[..i] + [sep] + rest;
        { assert s == s[..i] + [sep] + rest; }
        s;
      }
    }
  }

  /** Splitting a join of separator-free pieces gives back the pieces. */
  lemma {:induction false} SplitJoin(parts: seq<string>, sep: char)
    requires |parts| >= 1
    requires forall k :: 0 <= k < |parts| ==> sep !in parts[k]
    ensures Split(Join(parts, [sep]), sep) == parts
    decreases |parts|
  {
    if |parts| > 1 {
      var rest := Join(parts[1..], [sep]);
      var s := parts[0] + [sep] + rest;
      assert s[|parts[0]|] == sep;
      var i := IndexOf(s, sep);
      assert s[..|parts[0]|] == parts[0];
      assert i == |parts[0]|;
      assert s[i + 1..] == rest;
      SplitJoin(parts[1..], sep);
    } else {
      assert Join(parts, [sep]) == parts[0];
    }
  }

  /** The number of white-space characters at the front. */
  function LeadingSpaces(s: string): (k: nat)
    ensures k <= |s|
    ensures forall i :: 0 <= i < k ==> IsSpace(s[i])
    ensures k < |s| ==> !IsSpace(s[k])
  {
    if s == [] || !IsSpace(s[0]) then 0 else 1 + LeadingSpaces(s[1..])
  }

  /** The number of white-space characters at the end. */
  function TrailingSpaces(s: string): (k: nat)
    ensures k <= |s|
    ensures forall i :: |s| - k <= i < |s| ==> IsSpace(s[i])
    ensures k < |s| ==> !IsSpace(s[|s| - 1 - k])
  {
    if s == [] || !IsSpace(s[|s| - 1]) then 0 else 1 + TrailingSpaces(s[..|s| - 1])
  }

  /** `s.trim()`: the longest infix with no white space at either end. */
  function Trim(s: string): (r: string)
    ensures r == [] || (!IsSpace(r[0]) && !IsSpace(r[|r| - 1]))
    ensures (s == [] || (!IsSpace(s[0]) && !IsSpace(s[|s| - 1]))) ==> r == s
    ensures |r| <= |s|
  {
    var t := s[LeadingSpaces(s)..];
    t[..|t| - TrailingSpaces(t)]
  }

  function UpperChar(c: char): char {
    if 'a' <= c <= 'z' then (c as int - 32) as char else c
  }

  function LowerChar(c: char): char {
    if 'A' <= c <= 'Z' then (c as int + 32) as char else c
  }

  /** `s.toUpperCase()` on ASCII letters. */
  function ToUpper(s: string): (r: string)
    ensures |r| == |s| && forall i :: 0 <= i < |s| ==> r[i] == UpperChar(s[i])
  {
    seq(|s|, i requires 0 <= i < |s| => UpperChar(s[i]))
  }

  /** `s.toLowerCase()` on ASCII letters. */
  function ToLower(s: string): (r: string)
    ensures |r| == |s| && forall i :: 0 <= i < |s| ==> r[i] == LowerChar(s[i])
  {
    seq(|s|, i requires 0 <= i < |s| => LowerChar(s[i]))
  }

  /** `s.charAt(0).toUpperCase() + s.slice(1)`. */
  function Capitalize(s: string): (r: string)
    ensures |r| == |s|
    ensures s != [] ==> r[0] == UpperChar(s[0]) && r[1..] == s[1..]
  {
    if s == [] then [] else [UpperChar(s[0])] + s[1..]
  }

  /** The value of a digit in radix 10 or 16, or -1 for any other character. */
  function DigitValue(c: char, radix: int): int {
    if '0' <= c <= '9' then c as int - '0' as int
    else if radix == 16 && 'a' <= c <= 'f' then c as int - 'a' as int + 10
    else if radix == 16 && 'A' <= c <= 'F' then c as int - 'A' as int + 10
    else -1
  }

  /** How many leading characters are digits of the radix. */
  function DigitRun(s: string, radix: int): (k: nat)
    ensures k <= |s|
    ensures forall i :: 0 <= i < k ==> DigitValue(s[i], radix) >= 0
    ensures k < |s| ==> DigitValue(s[k], radix) < 0
  {
    if s == [] || DigitValue(s[0], radix) < 0 then 0 else 1 + DigitRun(s[1..], radix)
  }

  /** The value of a string of digits, most significant first. */
  function DigitsValue(ds: string, radix: int): int
  {
    if ds == [] then 0
    else DigitsValue(ds[..|ds| - 1], radix) * radix + DigitValue(ds[|ds| - 1], radix)
  }

  /** `parseInt(s)` with no radix: leading white space skipped, an optional
      sign, an optional `0x`/`0X` prefix selecting radix 16, then the longest
      run of digits; `None` stands for `NaN` (no digit at all). */
  function ParseInt(s: string): Option<int>
  {
    ParseSigned(s[LeadingSpaces(s)..])
  }

  function ParseSigned(t: string): Option<int>
  {
    var negative := t != [] && t[0] == '-';
    var u := if t != [] && (t[0] == '-' || t[0] == '+') then t[1..] else t;
    var r := ParseUnsigned(u);
    if r.Some? && negative then Some(-r.value) else r
  }

  function ParseUnsigned(u: string): Option<int>
  {
    var hex := |u| >= 2 && u[0] == '0' && (u[1] == 'x' || u[1] == 'X');
    var radix := if hex then 16 else 10;
    var digits := if hex then u[2..] else u;
    var k := DigitRun(digits, radix);
    if k == 0 then None else Some(DigitsValue(digits[..k], radix))
  }

  function DigitChar(d: nat): char
    requires d < 10
  {
    ('0' as int + d) as char
  }

  /** The decimal numeral of `n`, as `String(n)` writes it. */
  function Show(n: int): (s: string)
    ensures s != []
    decreases if n < 0 then 1 - n else n
  {
    if n < 0 then "-" + Show(-n)
    else if n < 10 then [DigitChar(n)]
    else Show(n / 10) + [DigitChar(n % 10)]
  }

  lemma {:induction false} ShowNaturalDigits(n: nat)
    ensures |Show(n)| >= 1 && Show(n)[0] != '-'
    ensures DigitRun(Show(n), 10) == |Show(n)|
    ensures DigitsValue(Show(n), 10) == n
  {
    if n >= 10 {
      ShowNaturalDigits(n / 10);
      var s := Show(n);
      var p := Show(n / 10);
      assert s == p + [DigitChar(n % 10)];
      assert s[..|s| - 1] == p;
      DigitRunAppend(p, DigitChar(n % 10));
    }
  }

  lemma {:induction false} DigitRunAppend(p: string, c: char)
    requires DigitRun(p, 10) == |p|
    requires '0' <= c <= '9'
    ensures DigitRun(p + [c], 10) == |p| + 1
    decreases |p|
  {
    if p != [] {
      assert (p + [c])[1..] == p[1..] + [c];
      DigitRunAppend(p[1..], c);
    }
  }

  lemma {:induction false} ParseUnsignedDigits(p: string)
    requires p != [] && DigitRun(p, 10) == |p|
    ensures ParseUnsigned(p) == Some(DigitsValue(p, 10))
  {
    assert DigitValue(p[0], 10) >= 0;
    assert |p| >= 2 ==> DigitValue(p[1], 10) >= 0;
    assert p[..|p|] == p;
  }

  lemma {:induction false} NoLeadingSpace(s: string)
    requires s != [] && ('0' <= s[0] <= '9' || s[0] == '-')
    ensures s[LeadingSpaces(s)..] == s
  {
    assert !IsSpace(s[0]);
    assert s[0..] == s;
  }

  /** A plain run of decimal digits, with or without a minus sign in front, reads as its value. */
  lemma {:induction false} ParseIntDigits(p: string)
    requires p != [] && DigitRun(p, 10) == |p|
    ensures ParseInt(p) == Some(DigitsValue(p, 10))
  {
    ParseUnsignedDigits(p);
    assert DigitValue(p[0], 10) >= 0;
    NoLeadingSpace(p);
    assert p[0] != '-' && p[0] != '+';
    assert ParseSigned(p) == ParseUnsigned(p);
  }

  /** A minus sign in front negates what follows it. */
  lemma {:induction false} ParseIntNegated(p: string, v: int)
    requires ParseUnsigned(p) == Some(v)
    ensures ParseInt("-" + p) == Some(-v)
  {
    var m := "-" + p;
    assert m[0] == '-' && m[1..] == p;
    NoLeadingSpace(m);
  }

  /** `parseInt` reads back every decimal numeral `String(n)`. */
  lemma ParseIntShow(n: int)
    ensures ParseInt(Show(n)) == Some(n)
  {
    if n >= 0 {
      ShowNaturalDigits(n);
      ParseIntDigits(Show(n));
    } else {
      ShowNaturalDigits(-n);
      ParseUnsignedDigits(Show(-n));
      ParseIntNegated(Show(-n), -n);
    }
  }
}
