/** The JavaScript string and number-text primitives the parsers rely on. */
module JsText {
  import opened Options

  /** White space and line terminators, as `String.prototype.trim` and `\s` take them. */
  predicate IsSpace(c: char) {
    || c == ' ' || c == '\t' || c == '\n' || c == '\r' || c == '\U{0B}' || c == '\U{0C}'
    || c == '\U{A0}' || c == '\U{1680}' || '\U{2000}' <= c <= '\U{200A}'
    || c == '\U{2028}' || c == '\U{2029}' || c == '\U{202F}' || c == '\U{205F}' || c == '\U{3000}'
    || c == '\U{FEFF}'
  }

  /** The code points of WhiteSpace and LineTerminator (sections 12.2 and 12.3 of ECMA-262). */
  lemma SpacesByCode(c: char)
    ensures IsSpace(c) <==>
            var code := c as int;
            || 9 <= code <= 13 || code == 32 || code == 160 || code == 0xFEFF
            || code == 0x1680 || 0x2000 <= code <= 0x200A || code == 0x202F || code == 0x205F || code == 0x3000
            || code == 0x2028 || code == 0x2029
  {
  }

  function TrimStart(s: string): (t: string)
    ensures t == [] || !IsSpace(t[0])
    ensures |t| <= |s|
  {
    if s == [] || !IsSpace(s[0]) then s else TrimStart(s[1..])
  }

  function TrimEnd(s: string): (t: string)
    ensures t == [] || !IsSpace(t[|t| - 1])
    ensures t <= s
  {
    if s == [] || !IsSpace(s[|s| - 1]) then s else TrimEnd(s[..|s| - 1])
  }

  function Trim(s: string): string {
    TrimEnd(TrimStart(s))
  }

  /** Nothing to trim at either end. */
  predicate Trimmed(s: string) {
    s == [] || (!IsSpace(s[0]) && !IsSpace(s[|s| - 1]))
  }

  lemma TrimKeepsTrimmed(s: string)
    requires Trimmed(s)
    ensures Trim(s) == s
  {
  }

  lemma {:induction false} TrimKeepsInk(s: string)
    requires s != [] && !IsSpace(s[0])
    ensures Trim(s) != ""
    decreases |s|
  {
    if |s| > 1 && IsSpace(s[|s| - 1]) {
      TrimKeepsInk(s[..|s| - 1]);
    }
  }

  predicate AllSpaces(s: string) {
    forall i :: 0 <= i < |s| ==> IsSpace(s[i])
  }

  lemma {:induction false} StartTrimmedAway(s: string) returns (left: string)
    ensures AllSpaces(left) && s == left + TrimStart(s)
  {
    if s == [] || !IsSpace(s[0]) {
      left := [];
    } else {
      var rest := StartTrimmedAway(s[1..]);
      left := [s[0]] + rest;
      assert s == [s[0]] + s[1..];
    }
  }

  lemma {:induction false} EndTrimmedAway(s: string) returns (right: string)
    ensures AllSpaces(right) && s == TrimEnd(s) + right
    decreases |s|
  {
    if s == [] || !IsSpace(s[|s| - 1]) {
      right := [];
    } else {
      var rest := EndTrimmedAway(s[..|s| - 1]);
      right := rest + [s[|s| - 1]];
      assert s == s[..|s| - 1] + [s[|s| - 1]];
    }
  }

  /** What trimming takes off is white space at both ends. */
  lemma TrimmedAway(s: string) returns (left: string, right: string)
    ensures AllSpaces(left) && AllSpaces(right) && s == left + Trim(s) + right
  {
    left := StartTrimmedAway(s);
    right := EndTrimmedAway(TrimStart(s));
  }

  lemma {:induction false} TrimStartSkips(left: string, s: string)
    requires AllSpaces(left)
    ensures TrimStart(left + s) == TrimStart(s)
  {
    if left == [] {
      assert left + s == s;
    } else {
      assert (left + s)[1..] == left[1..] + s;
      TrimStartSkips(left[1..], s);
    }
  }

  lemma {:induction false} TrimEndSkips(s: string, right: string)
    requires AllSpaces(right)
    ensures TrimEnd(s + right) == TrimEnd(s)
    decreases |right|
  {
    if right == [] {
      assert s + right == s;
    } else {
      var n := |right| - 1;
      assert (s + right)[..|s| + n] == s + right[..n];
      TrimEndSkips(s, right[..n]);
    }
  }

  /** White space around a text goes, and nothing else. */
  lemma TrimOfPadded(left: string, s: string, right: string)
    requires AllSpaces(left) && Trimmed(s) && AllSpaces(right)
    ensures Trim(left + s + right) == s
  {
    assert left + s + right == left + (s + right);
    TrimStartSkips(left, s + right);
    if s == [] {
      assert s + right == right + "";
      TrimStartSkips(right, "");
    } else {
      assert TrimStart(s + right) == s + right;
      TrimEndSkips(s, right);
    }
  }

  lemma BlankIffAllSpaces(s: string)
    ensures Trim(s) == "" <==> AllSpaces(s)
  {
    var left, right := TrimmedAway(s);
    if AllSpaces(s) {
      assert s + "" + "" == s;
      TrimOfPadded(s, "", "");
    }
  }

  function Split(s: string, separator: char): (parts: seq<string>)
    ensures parts != []
  {
    if s == [] then [[]]
    else
      var rest := Split(s[1..], separator);
      if s[0] == separator then [[]] + rest else [[s[0]] + rest[0]] + rest[1..]
  }

  lemma {:induction false} SplitAtFirst(first: string, separator: char, rest: string)
    requires separator !in first
    ensures Split(first + [separator] + rest, separator) == [first] + Split(rest, separator)
  {
    var s := first + [separator] + rest;
    if first == [] {
      assert s[1..] == rest;
    } else {
      assert s[1..] == first[1..] + [separator] + rest;
      SplitAtFirst(first[1..], separator, rest);
      var split := Split(s[1..], separator);
      assert split[1..] == Split(rest, separator) && [first[0]] + split[0] == first;
    }
  }

  lemma {:induction false} SplitWithout(s: string, separator: char)
    requires separator !in s
    ensures Split(s, separator) == [s]
  {
    if s != [] {
      SplitWithout(s[1..], separator);
      assert [s[0]] + s[1..] == s;
    }
  }

  function Join(parts: seq<string>, separator: char): string {
    if parts == [] then []
    else if |parts| == 1 then parts[0]
    else parts[0] + [separator] + Join(parts[1..], separator)
  }

  lemma {:induction false} SplitOfJoin(parts: seq<string>, separator: char)
    requires parts != [] && forall i :: 0 <= i < |parts| ==> separator !in parts[i]
    ensures Split(Join(parts, separator), separator) == parts
  {
    if |parts| == 1 {
      SplitWithout(parts[0], separator);
    } else {
      SplitOfJoin(parts[1..], separator);
      SplitAtFirst(parts[0], separator, Join(parts[1..], separator));
    }
  }

  function Occurrences(s: string, c: char): nat {
    if s == [] then 0 else (if s[0] == c then 1 else 0) + Occurrences(s[1..], c)
  }

  lemma {:induction false} SplitCounts(s: string, c: char)
    ensures |Split(s, c)| == Occurrences(s, c) + 1
  {
    if s != [] {
      SplitCounts(s[1..], c);
    }
  }

  lemma {:induction false} OccurrencesConcat(a: string, b: string, c: char)
    ensures Occurrences(a + b, c) == Occurrences(a, c) + Occurrences(b, c)
  {
    if a == [] {
      assert a + b == b;
    } else {
      assert (a + b)[1..] == a[1..] + b;
      OccurrencesConcat(a[1..], b, c);
    }
  }

  lemma {:induction false} OccursIffCounted(s: string, c: char)
    ensures Occurrences(s, c) == 0 <==> c !in s
  {
    if s != [] {
      OccursIffCounted(s[1..], c);
      assert s == [s[0]] + s[1..];
    }
  }

  // ---- Decimal numerals ----

  predicate IsDigit(c: char) {
    '0' <= c <= '9'
  }

  predicate AllDigits(s: string) {
    forall i :: 0 <= i < |s| ==> IsDigit(s[i])
  }

  function DigitOf(c: char): nat
    requires IsDigit(c)
  {
    (c as int) - ('0' as int)
  }

  function Digit(d: nat): (c: char)
    requires d < 10
    ensures IsDigit(c) && DigitOf(c) == d
  {
    ('0' as int + d) as char
  }

  /** The number a digit string denotes; leading zeros allowed. */
  function Num(s: string): nat
    requires AllDigits(s)
  {
    if s == [] then 0 else 10 * Num(s[..|s| - 1]) + DigitOf(s[|s| - 1])
  }

  function Pow10(n: nat): nat {
    if n == 0 then 1 else 10 * Pow10(n - 1)
  }

  /** The shortest numeral of a number. */
  function Decimal(n: nat): (s: string)
    ensures s != [] && AllDigits(s) && Num(s) == n
  {
    if n < 10 then
      assert [Digit(n)][..0] == [];
      [Digit(n)]
    else
      var front := Decimal(n / 10);
      var s := front + [Digit(n % 10)];
      assert s[..|s| - 1] == front;
      s
  }

  /** `String(n)` for an integer. */
  function JsString(n: int): string {
    if n < 0 then "-" + Decimal(-n) else Decimal(n)
  }

  /** `padStart(2, "0")`. */
  function Pad2(n: nat): string {
    var s := Decimal(n);
    if |s| < 2 then "0" + s else s
  }

  lemma {:induction false} NumBound(s: string)
    requires AllDigits(s)
    ensures Num(s) < Pow10(|s|)
  {
    if s != [] {
      NumBound(s[..|s| - 1]);
    }
  }

  /** A numeral without a leading zero is the shortest one for its number. */
  lemma {:induction false} DecimalOfNum(s: string)
    requires s != [] && AllDigits(s) && (|s| == 1 || s[0] != '0')
    ensures Decimal(Num(s)) == s
  {
    var front := s[..|s| - 1];
    var last := s[|s| - 1];
    if front == [] {
      assert s == [last];
      assert Num(s) == DigitOf(last);
    } else {
      DecimalOfNum(front);
      LeadingDigitCounts(front);
      assert Num(s) / 10 == Num(front) && Num(s) % 10 == DigitOf(last);
      assert s == front + [last];
    }
  }

  lemma {:induction false} LeadingDigitCounts(s: string)
    requires s != [] && AllDigits(s) && s[0] != '0'
    ensures Num(s) >= Pow10(|s| - 1)
  {
    var front := s[..|s| - 1];
    if front == [] {
      assert Num(s) == DigitOf(s[0]);
    } else {
      LeadingDigitCounts(front);
    }
  }

  lemma Num2(s: string)
    requires |s| == 2 && AllDigits(s)
    ensures Num(s) == 10 * DigitOf(s[0]) + DigitOf(s[1])
  {
    var front := s[..1];
    assert front[..0] == [] && Num(front) == DigitOf(s[0]);
  }

  lemma Pad2OfNum(s: string)
    requires |s| == 2 && AllDigits(s)
    ensures Pad2(Num(s)) == s
  {
    Num2(s);
    if s[0] == '0' {
      assert Num(s) < 10 && Digit(Num(s)) == s[1];
      assert s == "0" + [s[1]];
    } else {
      DecimalOfNum(s);
    }
  }

  /** Two digits for anything below a hundred, and they denote the number. */
  lemma Pad2IsTwoDigits(n: nat)
    requires n < 100
    ensures |Pad2(n)| == 2 && AllDigits(Pad2(n)) && Num(Pad2(n)) == n
  {
    var s := Decimal(n);
    if n < 10 {
      assert s == [Digit(n)];
      Num2(Pad2(n));
    } else {
      assert s == Decimal(n / 10) + [Digit(n % 10)];
    }
  }

  lemma {:induction false} DecimalLength(n: nat, k: nat)
    requires |Decimal(n)| == k
    ensures n < Pow10(k) && (n >= Pow10(k - 1) || n == 0)
    decreases k
  {
    if n >= 10 {
      var front := Decimal(n / 10);
      assert Decimal(n) == front + [Digit(n % 10)];
      DecimalLength(n / 10, k - 1);
    }
  }

  // ---- parseInt(s, 10) ----

  function DigitPrefix(s: string): (p: string)
    ensures AllDigits(p) && p <= s
    ensures |p| < |s| ==> !IsDigit(s[|p|])
  {
    if s == [] || !IsDigit(s[0]) then [] else [s[0]] + DigitPrefix(s[1..])
  }

  /** `None` is NaN. */
  function ParseInt(s: string): Option<int> {
    var t := TrimStart(s);
    var negative := t != [] && t[0] == '-';
    var body := if t != [] && (t[0] == '-' || t[0] == '+') then t[1..] else t;
    var digits := DigitPrefix(body);
    var n: int := Num(digits);
    if digits == [] then None else Some(if negative then -n else n)
  }

  /** An optional sign and a digit. */
  predicate StartsNumeral(s: string) {
    s != [] && (IsDigit(s[0]) || ((s[0] == '-' || s[0] == '+') && |s| > 1 && IsDigit(s[1])))
  }

  /** A number is found exactly where, after white space, a sign or none is followed by a digit. */
  lemma ParseIntAccepts(left: string, s: string)
    requires AllSpaces(left) && (s == [] || !IsSpace(s[0]))
    ensures ParseInt(left + s).Some? <==> StartsNumeral(s)
  {
    TrimStartSkips(left, s);
    assert TrimStart(s) == s;
  }

  lemma {:induction false} DigitPrefixStops(digits: string, rest: string)
    requires AllDigits(digits) && (rest == [] || !IsDigit(rest[0]))
    ensures DigitPrefix(digits + rest) == digits
  {
    if digits == [] {
      assert digits + rest == rest;
    } else {
      assert (digits + rest)[1..] == digits[1..] + rest;
      DigitPrefixStops(digits[1..], rest);
    }
  }

  lemma ParseIntFrom(s: string, t: string, sign: string, body: string, digits: string, n: int)
    requires TrimStart(s) == t && t == sign + body && DigitPrefix(body) == digits && digits != [] && n == Num(digits)
    requires sign == "" || sign == "+" || sign == "-"
    ensures ParseInt(s) == Some(if sign == "-" then -n else n)
  {
    assert body[0] == digits[0] && IsDigit(digits[0]);
    if sign == "" {
      assert t == body;
    } else {
      assert t[0] == sign[0] && t[1..] == body;
    }
  }

  /** Its value is that of all the digits there, whatever follows them. */
  lemma ParseIntReadsTheDigits(left: string, sign: string, digits: string, rest: string, n: int)
    requires AllSpaces(left) && (sign == "" || sign == "+" || sign == "-")
    requires digits != [] && AllDigits(digits) && (rest == [] || !IsDigit(rest[0])) && n == Num(digits)
    ensures ParseInt(left + (sign + (digits + rest))) == Some(if sign == "-" then -n else n)
  {
    var t := sign + (digits + rest);
    assert !IsSpace(t[0]) by {
      assert t[0] == if sign == "" then digits[0] else sign[0];
      assert IsDigit(digits[0]);
    }
    TrimStartSkips(left, t);
    DigitPrefixStops(digits, rest);
    ParseIntFrom(left + t, t, sign, digits + rest, digits, n);
  }

  lemma {:induction false} PrefixOfDigits(s: string)
    requires AllDigits(s)
    ensures DigitPrefix(s) == s
  {
    if s != [] {
      PrefixOfDigits(s[1..]);
    }
  }

  lemma ParseIntOfPrinted(n: int)
    ensures ParseInt(JsString(n)) == Some(n)
  {
    var s := JsString(n);
    var digits := Decimal(if n < 0 then -n else n);
    assert IsDigit(digits[0]);
    assert TrimStart(s) == s;
    if n < 0 {
      assert s[1..] == digits;
    }
    PrefixOfDigits(digits);
  }

  // ---- Lexicographic order ----

  predicate LexLess(a: string, b: string) {
    a != [] && b != [] && (a[0] < b[0] || (a[0] == b[0] && LexLess(a[1..], b[1..])))
  }

  lemma {:induction false} LexConcat(a: string, b: string, c: string, d: string)
    requires |a| == |c|
    ensures LexLess(a + b, c + d) <==> LexLess(a, c) || (a == c && LexLess(b, d))
  {
    if a == [] {
      assert a + b == b && c + d == d;
    } else {
      assert (a + b)[1..] == a[1..] + b && (c + d)[1..] == c[1..] + d;
      LexConcat(a[1..], b, c[1..], d);
      assert a == [a[0]] + a[1..] && c == [c[0]] + c[1..];
    }
  }

  /** Digit strings of one length are ordered as their numbers. */
  lemma {:induction false} LexIsNumeric(a: string, b: string)
    requires |a| == |b| && AllDigits(a) && AllDigits(b)
    ensures LexLess(a, b) <==> Num(a) < Num(b)
    ensures a == b <==> Num(a) == Num(b)
  {
    if a != [] {
      var k := |a| - 1;
      LexIsNumeric(a[..k], b[..k]);
      LexConcat(a[..k], [a[k]], b[..k], [b[k]]);
      assert a == a[..k] + [a[k]] && b == b[..k] + [b[k]];
      assert LexLess([a[k]], [b[k]]) <==> a[k] < b[k];
    }
  }
}
