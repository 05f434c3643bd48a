/** The searches and number conversions of the C++ standard library that the parsers use. */
module Text {

  datatype Option<+T> = None | Some(value: T)

  /** `s.find(c, from)`; -1 stands for `npos`. */
  function FindChar(s: string, c: char, from: nat): (p: int)
    ensures -1 <= p < |s|
    ensures p >= 0 ==> from <= p && s[p] == c
    ensures forall i :: from <= i < (if p >= 0 then p else |s|) ==> s[i] != c
    decreases |s| - from
  {
    if from >= |s| then -1 else if s[from] == c then from else FindChar(s, c, from + 1)
  }

  predicate OccursAt(s: string, pattern: string, i: nat) {
    i + |pattern| <= |s| && s[i..i + |pattern|] == pattern
  }

  /** `s.find(pattern, from)` for a non-empty pattern. */
  function FindText(s: string, pattern: string, from: nat): (p: int)
    requires pattern != []
    ensures -1 <= p < |s|
    ensures p >= 0 ==> from <= p
    decreases |s| - from
  {
    if from >= |s| then -1
    else if OccursAt(s, pattern, from) then from
    else FindText(s, pattern, from + 1)
  }

  lemma {:induction false} FindTextIsFirst(s: string, pattern: string, from: nat)
    requires pattern != []
    ensures
      var p := FindText(s, pattern, from);
      && (p >= 0 ==> OccursAt(s, pattern, p))
      && forall i :: from <= i < (if p >= 0 then p else |s|) ==> !OccursAt(s, pattern, i)
    decreases |s| - from
  {
    if from < |s| && !OccursAt(s, pattern, from) { FindTextIsFirst(s, pattern, from + 1); }
  }

  predicate IsDigit(c: char) { '0' <= c <= '9' }

  predicate AllDigits(s: string) {
    forall i :: 0 <= i < |s| ==> IsDigit(s[i])
  }

  /** `s.find_first_not_of("0123456789", from)`, with `npos` read as the length. */
  function DigitsEnd(s: string, from: nat): (p: nat)
    requires from <= |s|
    ensures from <= p <= |s|
    ensures forall i :: from <= i < p ==> IsDigit(s[i])
    ensures p < |s| ==> !IsDigit(s[p])
    decreases |s| - from
  {
    if from < |s| && IsDigit(s[from]) then DigitsEnd(s, from + 1) else from
  }

  function PrintNat(n: nat): (s: string)
    ensures s != [] && AllDigits(s)
  {
    if n < 10 then [(n + '0' as int) as char] else PrintNat(n / 10) + [(n % 10 + '0' as int) as char]
  }

  function PrintInt(n: int): string {
    if n < 0 then "-" + PrintNat(-n) else PrintNat(n)
  }

  function DigitsValue(s: string): nat
    requires AllDigits(s)
  {
    if s == [] then 0 else DigitsValue(s[..|s| - 1]) * 10 + (s[|s| - 1] as int - '0' as int)
  }

  lemma {:induction false} PrintedValue(n: nat)
    ensures DigitsValue(PrintNat(n)) == n
  {
    if n >= 10 {
      var s := PrintNat(n);
      PrintedValue(n / 10);
      assert s[..|s| - 1] == PrintNat(n / 10);
    } else {
      assert PrintNat(n)[..0] == [];
    }
  }

  predicate IsSpace(c: char) {
    c == ' ' || '\t' <= c <= '\r'
  }

  function SkipSpaces(s: string): string {
    if s != [] && IsSpace(s[0]) then SkipSpaces(s[1..]) else s
  }

  /** `std::stoi` and `std::stoll` in base 10: leading white space, an optional sign, at least
      one digit, and whatever follows is ignored. `None` stands for the exceptions they throw. */
  function ParseNumber(s: string, low: int, high: int): Option<int> {
    var t := SkipSpaces(s);
    var neg := t != [] && t[0] == '-';
    var body := if t != [] && (t[0] == '-' || t[0] == '+') then t[1..] else t;
    var n := DigitsEnd(body, 0);
    if n == 0 then None
    else
      var m: int := DigitsValue(body[..n]);
      var v := if neg then -m else m;
      if low <= v <= high then Some(v) else None
  }

  lemma DigitsEndAt(s: string, from: nat, p: nat)
    requires from <= p <= |s|
    requires forall i :: from <= i < p ==> IsDigit(s[i])
    requires p < |s| ==> !IsDigit(s[p])
    ensures DigitsEnd(s, from) == p
  {
    var q := DigitsEnd(s, from);
  }

  /** Printing a number and parsing it back gives the number, up to the range of the type;
      what follows the digits does not matter. */
  lemma ParsesPrinted(n: nat, rest: string, low: int, high: int)
    requires rest != [] ==> !IsDigit(rest[0])
    requires low <= 0
    ensures ParseNumber(PrintNat(n) + rest, low, high) == if n <= high then Some(n) else None
  {
    var s := PrintNat(n) + rest;
    assert IsDigit(PrintNat(n)[0]) && s[0] == PrintNat(n)[0];
    assert SkipSpaces(s) == s;
    DigitsEndAt(s, 0, |PrintNat(n)|);
    assert s[..|PrintNat(n)|] == PrintNat(n);
    PrintedValue(n);
  }

  /** The white space of the C locale: the blank and the characters 9 to 13. */
  predicate IsBlank(s: string) {
    forall i :: 0 <= i < |s| ==> s[i] == ' ' || 9 <= s[i] as int <= 13
  }

  lemma {:induction false} SkipsBlank(blanks: string, rest: string)
    requires IsBlank(blanks) && (rest != [] ==> !(rest[0] == ' ' || 9 <= rest[0] as int <= 13))
    ensures SkipSpaces(blanks + rest) == rest
  {
    if blanks == [] {
      assert blanks + rest == rest;
    } else {
      assert (blanks + rest)[1..] == blanks[1..] + rest;
      SkipsBlank(blanks[1..], rest);
    }
  }

  function SignedValue(sign: string, digits: string): int
    requires AllDigits(digits)
  {
    if sign == "-" then 0 - DigitsValue(digits) else DigitsValue(digits)
  }

  /** A number is read behind white space and a sign, up to the first character that is no digit,
      if there is a digit and the value is in range. */
  lemma NumberMeans(blanks: string, sign: string, digits: string, rest: string, low: int, high: int)
    requires IsBlank(blanks) && (sign == "" || sign == "-" || sign == "+")
    requires AllDigits(digits) && (rest != [] ==> !IsDigit(rest[0]))
    requires digits == [] && sign == [] && rest != [] ==>
      rest[0] != '-' && rest[0] != '+' && !(rest[0] == ' ' || 9 <= rest[0] as int <= 13)
    ensures
      ParseNumber(blanks + (sign + (digits + rest)), low, high)
      == if digits != [] && low <= SignedValue(sign, digits) <= high then Some(SignedValue(sign, digits)) else None
  {
    DigitsFirst(digits, rest);
    SignFirst(sign, digits + rest);
    SkipsBlank(blanks, sign + (digits + rest));
  }

  lemma DigitsFirst(digits: string, rest: string)
    requires AllDigits(digits) && (rest != [] ==> !IsDigit(rest[0]))
    ensures digits != [] ==> IsDigit((digits + rest)[0])
    ensures digits == [] ==> digits + rest == rest
    ensures DigitsEnd(digits + rest, 0) == |digits| && (digits + rest)[..|digits|] == digits
  {
    var number := digits + rest;
    assert forall i :: 0 <= i < |digits| ==> number[i] == digits[i];
    DigitsEndAt(number, 0, |digits|);
  }

  lemma SignFirst(sign: string, number: string)
    requires sign == "" || sign == "-" || sign == "+"
    ensures sign == "" ==> sign + number == number
    ensures sign != "" ==> (sign + number)[0] == sign[0] && (sign + number)[1..] == number
  {}

  lemma FindsFirstChar(s: string, c: char, from: nat, p: nat)
    requires from <= p < |s| && s[p] == c
    requires forall i :: from <= i < p ==> s[i] != c
    ensures FindChar(s, c, from) == p
  {}

  lemma FindsNoChar(s: string, c: char, from: nat)
    requires forall i :: from <= i < |s| ==> s[i] != c
    ensures FindChar(s, c, from) == -1
  {}

  lemma OccurrenceStarts(s: string, pattern: string, i: nat)
    requires |pattern| >= 2 && OccursAt(s, pattern, i)
    ensures i + 1 < |s| && s[i] == pattern[0] && s[i + 1] == pattern[1]
  {
    assert s[i..i + |pattern|][0] == s[i] && s[i..i + |pattern|][1] == s[i + 1];
  }

  /** The first occurrence, told from earlier positions by two characters. */
  lemma FindsFirstText(s: string, pattern: string, p: nat)
    requires |pattern| >= 2 && OccursAt(s, pattern, p)
    requires forall i :: 0 <= i < p ==> s[i] != pattern[0] || s[i + 1] != pattern[1]
    ensures FindText(s, pattern, 0) == p
  {
    var q := FindText(s, pattern, 0);
    FindTextIsFirst(s, pattern, 0);
    assert 0 <= q <= p;
    OccurrenceStarts(s, pattern, q);
  }

  predicate Lacks(s: string, c: char) {
    forall i :: 0 <= i < |s| ==> s[i] != c
  }

  /** Two separators cut a text into three parts. */
  lemma CutInThree(s: string, i: nat, j: nat, sep: char)
    requires i < j < |s| && s[i] == sep && s[j] == sep
    ensures s == s[..i] + [sep] + s[i + 1..j] + [sep] + s[j + 1..]
  {
    assert s == s[..i] + [s[i]] + s[i + 1..];
    assert s[i + 1..] == s[i + 1..j] + [s[j]] + s[j + 1..];
  }

  lemma PieceLacks(s: string, i: nat, j: nat, c: char)
    requires i <= j <= |s| && forall k :: i <= k < j ==> s[k] != c
    ensures Lacks(s[i..j], c)
  {}

  lemma PrefixCut(s: string, prefix: string)
    requires |prefix| <= |s| && s[..|prefix|] == prefix
    ensures s == prefix + s[|prefix|..]
  {
    assert s == s[..|prefix|] + s[|prefix|..];
  }

  lemma PrefixJoined(prefix: string, rest: string)
    ensures (prefix + rest)[..|prefix|] == prefix && (prefix + rest)[|prefix|..] == rest
  {}

  /** Where the first two separators of a text with three parts are, and what they separate. */
  lemma SplitsInThree(a: string, b: string, c: string, sep: char)
    requires Lacks(a, sep) && Lacks(b, sep)
    ensures
      var s := a + [sep] + b + [sep] + c;
      && FindChar(s, sep, 0) == |a|
      && FindChar(s, sep, |a| + 1) == |a| + 1 + |b|
      && s[..|a|] == a
      && s[|a| + 1..|a| + 1 + |b|] == b
      && s[|a| + 1 + |b| + 1..] == c
  {
    var s, n, m := a + [sep] + b + [sep] + c, |a|, |a| + 1 + |b|;
    forall i | 0 <= i < n ensures s[i] != sep { assert s[i] == a[i]; }
    FindsFirstChar(s, sep, 0, n);
    forall i | n < i < m ensures s[i] != sep { assert s[i] == b[i - n - 1]; }
    FindsFirstChar(s, sep, n + 1, m);
  }

  /** `std::string::operator<` */
  predicate Less(a: string, b: string) {
    b != [] && (a == [] || a[0] < b[0] || (a[0] == b[0] && Less(a[1..], b[1..])))
  }

  lemma {:induction false} LessTransitive(a: string, b: string, c: string)
    requires Less(a, b) && Less(b, c)
    ensures Less(a, c)
  {
    if a != [] && a[0] == b[0] == c[0] { LessTransitive(a[1..], b[1..], c[1..]); }
  }

  lemma {:induction false} LessTotal(a: string, b: string)
    ensures !(Less(a, b) && Less(b, a))
    ensures Less(a, b) || Less(b, a) || a == b
    ensures Less(a, b) ==> a != b
  {
    if a != [] && b != [] {
      LessTotal(a[1..], b[1..]);
      if a[0] == b[0] && a[1..] == b[1..] {
        assert a == [a[0]] + a[1..] && b == [b[0]] + b[1..];
      }
    }
  }

  /** It is the lexicographic order of the character codes. */
  ghost predicate DiffersFirstAt(a: string, b: string, k: nat) {
    k <= |a| && k < |b| && a[..k] == b[..k] && (k == |a| || a[k] < b[k])
  }

  lemma {:induction false} LessIff(a: string, b: string)
    ensures Less(a, b) <==> exists k: nat :: DiffersFirstAt(a, b, k)
  {
    if b != [] && a != [] && a[0] == b[0] {
      LessIff(a[1..], b[1..]);
      if Less(a, b) {
        var k: nat :| DiffersFirstAt(a[1..], b[1..], k);
        assert a[..k + 1] == [a[0]] + a[1..][..k] && b[..k + 1] == [b[0]] + b[1..][..k];
        assert DiffersFirstAt(a, b, k + 1);
      }
      if exists k: nat :: DiffersFirstAt(a, b, k) {
        var k: nat :| DiffersFirstAt(a, b, k);
        assert a[1..][..k - 1] == a[..k][1..] && b[1..][..k - 1] == b[..k][1..];
        assert DiffersFirstAt(a[1..], b[1..], k - 1);
      }
    } else if Less(a, b) {
      assert DiffersFirstAt(a, b, 0);
    } else {
      forall k: nat ensures !DiffersFirstAt(a, b, k) {
        if 0 < k <= |a| && k < |b| { assert a[..k][0] == a[0] && b[..k][0] == b[0]; }
      }
    }
  }
}
