/** The base64 and base64url coders of `JwtUtil` and `PasswordUtil`.

    A C++ `std::string` is a `string` here and a byte is the code of a character; `IsBytes`
    says that all codes are below 256, which C++ strings satisfy by type. `PadEncoded` and
    `UrlEncoded` define the encodings of sections 4 and 5 of RFC 4648 by arithmetic on groups
    of up to three bytes. The methods compute them with shifts and masks, and the url form
    from the padded one by translating the alphabet and removing the padding.
  */
module Base64 {
  import opened Bits

  type Sextet = n: nat | n < 64
  type Octet = n: nat | n < 256

  predicate IsBytes(s: string) {
    forall i :: 0 <= i < |s| ==> s[i] as int < 256
  }

  function Byte(c: char): Octet { c as int % 256 }

  function Chr(n: Octet): char { n as char }

  /** The alphabet of section 4 of RFC 4648. */
  function Symbol(v: Sextet): char {
    if v < 26 then (v + 'A' as int) as char
    else if v < 52 then (v - 26 + 'a' as int) as char
    else if v < 62 then (v - 52 + '0' as int) as char
    else if v == 62 then '+'
    else '/'
  }

  /** `decode_table`: 255 marks a character outside the alphabet, and '=' reads as 0. */
  function Value(c: char): Octet {
    if 'A' <= c <= 'Z' then c as int - 'A' as int
    else if 'a' <= c <= 'z' then c as int - 'a' as int + 26
    else if '0' <= c <= '9' then c as int - '0' as int + 52
    else if c == '+' then 62
    else if c == '/' then 63
    else if c == '=' then 0
    else 255
  }

  function ToUrl(c: char): char {
    if c == '+' then '-' else if c == '/' then '_' else c
  }

  function FromUrl(c: char): char {
    if c == '-' then '+' else if c == '_' then '/' else c
  }

  /** The alphabet of section 5 of RFC 4648. */
  predicate UrlSafe(c: char) {
    'A' <= c <= 'Z' || 'a' <= c <= 'z' || '0' <= c <= '9' || c == '-' || c == '_'
  }

  function GroupSize(s: string): (n: nat)
    ensures n <= |s|
  {
    if |s| < 3 then |s| else 3
  }

  function ByteAt(s: string, i: nat): Octet {
    if i < |s| then Byte(s[i]) else 0
  }

  /** The leading 24-bit group, cut into sextets; a short group gives fewer of them. */
  function Sextets(s: string): (v: seq<Sextet>)
    requires s != []
    ensures |v| == GroupSize(s) + 1
  {
    var a, b, c := ByteAt(s, 0), ByteAt(s, 1), ByteAt(s, 2);
    [a / 4, a % 4 * 16 + b / 16, b % 16 * 4 + c / 64, c % 64][..GroupSize(s) + 1]
  }

  function Symbols(v: seq<Sextet>): (g: string)
    ensures |g| == |v|
  {
    seq(|v|, i requires 0 <= i < |v| => Symbol(v[i]))
  }

  function Translated(s: string, f: char -> char): (t: string)
    ensures |t| == |s|
  {
    seq(|s|, i requires 0 <= i < |s| => f(s[i]))
  }

  function PadTo4(s: string): string {
    if |s| % 4 == 0 then s
    else if |s| % 4 == 1 then s + "==="
    else if |s| % 4 == 2 then s + "=="
    else s + "="
  }

  function PadEncoded(s: string): string {
    if s == [] then [] else PadTo4(Symbols(Sextets(s))) + PadEncoded(s[GroupSize(s)..])
  }

  function UrlEncoded(s: string): string {
    if s == [] then [] else Translated(Symbols(Sextets(s)), ToUrl) + UrlEncoded(s[GroupSize(s)..])
  }

  /** What the decoder makes of four characters of which the first two are in the alphabet. */
  function GroupBytes(g: string): string
    requires |g| >= 4 && Value(g[0]) != 255 && Value(g[1]) != 255
  {
    var a, b, c, d := Value(g[0]), Value(g[1]), Value(g[2]), Value(g[3]);
    [Chr(a * 4 + b / 16)] +
    if g[2] == '=' || c == 255 then []
    else [Chr(b % 16 * 16 + c / 4)] + if g[3] == '=' || d == 255 then [] else [Chr(c % 4 * 64 + d)]
  }

  /** Decoding stops at the first group that does not start with two alphabet characters. */
  function PadDecoded(s: string): string {
    if |s| < 4 || Value(s[0]) == 255 || Value(s[1]) == 255 then []
    else GroupBytes(s) + PadDecoded(s[4..])
  }

  function UrlDecoded(s: string): string {
    PadDecoded(PadTo4(Translated(s, FromUrl)))
  }

  function Stripped(s: string): string {
    if s != [] && s[|s| - 1] == '=' then Stripped(s[..|s| - 1]) else s
  }

  lemma SymbolValue(v: Sextet)
    ensures Value(Symbol(v)) == v && Symbol(v) != '='
    ensures UrlSafe(ToUrl(Symbol(v))) && FromUrl(ToUrl(Symbol(v))) == Symbol(v)
  {}

  /** `decode_table` as a whole: the characters outside the alphabet, '=', and the rest. */
  lemma ValueMeans(c: char)
    ensures Value(c) == 255 <==>
      !('A' <= c <= 'Z' || 'a' <= c <= 'z' || '0' <= c <= '9' || c == '+' || c == '/' || c == '=')
    ensures Value('=') == 0
    ensures Value(c) != 255 && c != '=' ==> Value(c) < 64 && Symbol(Value(c)) == c
  {}

  /** How many bytes a group gives that starts with two characters of the alphabet. */
  function ByteCount(g: string): nat
    requires |g| == 4
  {
    if g[2] == '=' || Value(g[2]) == 255 then 1 else if g[3] == '=' || Value(g[3]) == 255 then 2 else 3
  }

  /** The 24 bits of a group, with zeros for what it does not give. */
  function Word24(g: string): nat
    requires |g| == 4
  {
    262144 * Value(g[0]) + 4096 * Value(g[1])
    + (if ByteCount(g) > 1 then 64 * Value(g[2]) else 0) + if ByteCount(g) > 2 then Value(g[3]) else 0
  }

  /** Decoding any text, group by group: it stops where fewer than four characters are left or one
      of the first two is outside the alphabet, and otherwise goes on behind the leading bytes
      of the group's 24 bits, as many as it gives. */
  lemma DecodesGroups(g: string, rest: string)
    requires |g| == 4
    ensures Value(g[0]) == 255 || Value(g[1]) == 255 ==> PadDecoded(g + rest) == []
    ensures Value(g[0]) != 255 && Value(g[1]) != 255 ==>
      var n := Word24(g);
      n < 0x100_0000 &&
      PadDecoded(g + rest) == [Chr(n / 65536), Chr(n / 256 % 256), Chr(n % 256)][..ByteCount(g)] + PadDecoded(rest)
  {
    assert (g + rest)[..4] == g && (g + rest)[4..] == rest;
    if Value(g[0]) != 255 && Value(g[1]) != 255 {
      GroupGives(g);
      assert GroupBytes(g + rest) == GroupBytes(g);
    }
  }

  lemma BytesOfWord(a: Sextet, b: Sextet, c: Sextet, d: Sextet)
    ensures
      var n := 262144 * a + 4096 * b + 64 * c + d;
      n / 65536 == a * 4 + b / 16 && n / 256 % 256 == b % 16 * 16 + c / 4 && n % 256 == c % 4 * 64 + d
  {
    var n := 262144 * a + 4096 * b + 64 * c + d;
    var x, y, z := a * 4 + b / 16, b % 16 * 16 + c / 4, c % 4 * 64 + d;
    assert b == 16 * (b / 16) + b % 16 && c == 4 * (c / 4) + c % 4;
    assert n == x * 65536 + (256 * y + z) && n == (256 * x + y) * 256 + z;
    DivModUnique(n, 65536, x, 256 * y + z);
    DivModUnique(n, 256, 256 * x + y, z);
    DivModUnique(256 * x + y, 256, x, y);
  }

  lemma GroupGives(g: string)
    requires |g| == 4 && Value(g[0]) != 255 && Value(g[1]) != 255
    ensures
      var n := Word24(g);
      n < 0x100_0000 && GroupBytes(g) == [Chr(n / 65536), Chr(n / 256 % 256), Chr(n % 256)][..ByteCount(g)]
  {
    SixBits(g[0]);
    SixBits(g[1]);
    SixBits(g[2]);
    SixBits(g[3]);
    var a, b := Value(g[0]), Value(g[1]);
    var c := if ByteCount(g) > 1 then Value(g[2]) else 0;
    var d := if ByteCount(g) > 2 then Value(g[3]) else 0;
    assert Word24(g) == 262144 * a + 4096 * b + 64 * c + d < 0x100_0000;
    BytesOfWord(a, b, c, d);
    BytesGiven(g, a * 4 + b / 16, b % 16 * 16 + c / 4, c % 4 * 64 + d);
  }

  lemma SixBits(c: char)
    ensures Value(c) == 255 || Value(c) < 64
  {}

  lemma BytesGiven(g: string, x: Octet, y: Octet, z: Octet)
    requires |g| == 4 && Value(g[0]) != 255 && Value(g[1]) != 255
    requires x == Value(g[0]) * 4 + Value(g[1]) / 16
    requires ByteCount(g) > 1 ==> y == Value(g[1]) % 16 * 16 + Value(g[2]) / 4
    requires ByteCount(g) > 2 ==> z == Value(g[2]) % 4 * 64 + Value(g[3])
    ensures GroupBytes(g) == [Chr(x), Chr(y), Chr(z)][..ByteCount(g)]
  {}

  lemma ShortDecodesToNothing(s: string)
    requires |s| < 4
    ensures PadDecoded(s) == []
  {}

  /** The bytes that two to four sextets stand for. */
  function Octets(v: seq<Sextet>): string
    requires 2 <= |v| <= 4
  {
    var a: nat, b: nat := v[0], v[1];
    var c: nat, d: nat := if |v| > 2 then v[2] else 0, if |v| > 3 then v[3] else 0;
    [Chr(a * 4 + b / 16), Chr(b % 16 * 16 + c / 4), Chr(c % 4 * 64 + d)][..|v| - 1]
  }

  lemma DecodesSymbols(v: seq<Sextet>, rest: string)
    requires 2 <= |v| <= 4
    ensures PadDecoded(PadTo4(Symbols(v)) + rest) == Octets(v) + PadDecoded(rest)
  {
    var g := PadTo4(Symbols(v));
    forall i | 0 <= i < |v| ensures g[i] == Symbol(v[i]) && Value(g[i]) == v[i] && g[i] != '=' {
      SymbolValue(v[i]);
    }
    assert (g + rest)[4..] == rest;
    assert GroupBytes(g + rest) == Octets(v);
  }

  lemma OctetsOfSextets(s: string)
    requires IsBytes(s) && s != []
    ensures Octets(Sextets(s)) == s[..GroupSize(s)]
  {
    var a, b, c := ByteAt(s, 0), ByteAt(s, 1), ByteAt(s, 2);
    var n := GroupSize(s) + 1;
    var v := Sextets(s);
    assert a / 4 * 4 + (a % 4 * 16 + b / 16) / 16 == a;
    assert (a % 4 * 16 + b / 16) % 16 == b / 16;
    assert (b % 16 * 4 + c / 64) / 4 == b % 16;
    assert (b % 16 * 4 + c / 64) % 4 == c / 64;
  }

  /** Decoding an encoded byte string gives it back, and goes on behind it. */
  lemma {:induction false} DecodesEncodedPrefix(s: string, rest: string)
    requires IsBytes(s)
    ensures PadDecoded(PadEncoded(s) + rest) == s + PadDecoded(rest)
  {
    if s == [] {
      assert PadEncoded(s) + rest == rest;
    } else {
      var n := GroupSize(s);
      var g := PadTo4(Symbols(Sextets(s)));
      OctetsOfSextets(s);
      DecodesSymbols(Sextets(s), PadEncoded(s[n..]) + rest);
      DecodesEncodedPrefix(s[n..], rest);
      Regroup(g, PadEncoded(s[n..]), rest);
      Regroup(s[..n], s[n..], PadDecoded(rest));
      assert s[..n] + s[n..] == s;
    }
  }

  lemma Regroup(a: string, b: string, c: string)
    ensures a + b + c == a + (b + c)
  {}

  /** The padded coders are inverse on every byte string. */
  lemma PadRoundTrip(s: string)
    requires IsBytes(s)
    ensures PadDecoded(PadEncoded(s)) == s
  {
    DecodesEncodedPrefix(s, []);
    assert PadEncoded(s) + [] == PadEncoded(s);
  }

  /** What stands behind an encoded byte string is ignored from the first group on that does
      not start with two characters of the alphabet. */
  lemma StopsAtBadGroup(s: string, bad: string)
    requires IsBytes(s)
    requires |bad| < 4 || Value(bad[0]) == 255 || Value(bad[1]) == 255
    ensures PadDecoded(PadEncoded(s) + bad) == s
  {
    DecodesEncodedPrefix(s, bad);
  }

  lemma TranslatedConcat(s: string, t: string, f: char -> char)
    ensures Translated(s + t, f) == Translated(s, f) + Translated(t, f)
  {}

  lemma SymbolsFromUrl(v: seq<Sextet>)
    ensures Translated(Translated(Symbols(v), ToUrl), FromUrl) == Symbols(v)
  {
    forall i | 0 <= i < |v| ensures FromUrl(ToUrl(Symbol(v[i]))) == Symbol(v[i]) {
      SymbolValue(v[i]);
    }
  }

  lemma PadAfterGroup(g: string, rest: string)
    requires |g| % 4 == 0
    ensures PadTo4(g + rest) == g + PadTo4(rest)
  {
    assert |g + rest| % 4 == |rest| % 4;
    assert g + rest + "===" == g + (rest + "===");
    assert g + rest + "==" == g + (rest + "==");
    assert g + rest + "=" == g + (rest + "=");
  }

  /** Undoing the alphabet and restoring the padding of the url form gives the padded form. */
  lemma {:induction false} PadOfUrl(s: string)
    ensures PadTo4(Translated(UrlEncoded(s), FromUrl)) == PadEncoded(s)
  {
    if s != [] {
      var n := GroupSize(s);
      var g, rest := Symbols(Sextets(s)), UrlEncoded(s[n..]);
      SymbolsFromUrl(Sextets(s));
      TranslatedConcat(Translated(g, ToUrl), rest, FromUrl);
      if |s| > 3 {
        PadOfUrl(s[n..]);
        PadAfterGroup(g, Translated(rest, FromUrl));
      } else {
        assert g + Translated(rest, FromUrl) == g;
        assert PadTo4(g) + PadEncoded([]) == PadTo4(g);
      }
    }
  }

  /** `base64UrlDecode(base64UrlEncode(s)) == s` for every byte string. */
  lemma UrlRoundTrip(s: string)
    requires IsBytes(s)
    ensures UrlDecoded(UrlEncoded(s)) == s
  {
    PadOfUrl(s);
    PadRoundTrip(s);
  }

  /** The encoding is unpadded, as long as RFC 4648 demands, and url-safe: in particular it
      contains no '.', so the parts of a token can be told apart. */
  lemma {:induction false} UrlAlphabet(s: string)
    ensures |UrlEncoded(s)| == (4 * |s| + 2) / 3
    ensures forall i :: 0 <= i < |UrlEncoded(s)| ==> UrlSafe(UrlEncoded(s)[i])
  {
    if s != [] {
      var v := Sextets(s);
      forall i | 0 <= i < |v| ensures UrlSafe(ToUrl(Symbol(v[i]))) { SymbolValue(v[i]); }
      UrlAlphabet(s[GroupSize(s)..]);
    }
  }

  lemma {:induction false} StrippedAfter(s: string, t: string)
    requires forall i :: 0 <= i < |t| ==> t[i] == '='
    requires s == [] || s[|s| - 1] != '='
    ensures Stripped(s + t) == s
    decreases |t|
  {
    if t == [] {
      assert s + t == s;
    } else {
      assert (s + t)[..|s + t| - 1] == s + t[..|t| - 1];
      StrippedAfter(s, t[..|t| - 1]);
    }
  }

  lemma {:induction false} StrippedConcat(s: string, t: string)
    requires Stripped(t) != []
    ensures Stripped(s + t) == s + Stripped(t)
    decreases |t|
  {
    if t[|t| - 1] == '=' {
      assert (s + t)[..|s + t| - 1] == s + t[..|t| - 1];
      StrippedConcat(s, t[..|t| - 1]);
    }
  }

  lemma StripsLastGroup(v: seq<Sextet>)
    requires 2 <= |v| <= 4
    ensures Stripped(Translated(PadTo4(Symbols(v)), ToUrl)) == Translated(Symbols(v), ToUrl)
  {
    SymbolValue(v[|v| - 1]);
    var g, t := Translated(Symbols(v), ToUrl), Translated(PadTo4(Symbols(v)), ToUrl);
    forall i | 0 <= i < |t| - |v| ensures t[|v|..][i] == '=' {
      assert t[|v| + i] == ToUrl(PadTo4(Symbols(v))[|v| + i]);
    }
    assert t == g + t[|v|..];
    StrippedAfter(g, t[|v|..]);
  }

  lemma StripsLaterGroup(v: seq<Sextet>, p: string, u: string)
    requires |v| == 4 && u != []
    requires Stripped(Translated(p, ToUrl)) == u
    ensures Stripped(Translated(PadTo4(Symbols(v)) + p, ToUrl)) == Translated(Symbols(v), ToUrl) + u
  {
    TranslatedConcat(Symbols(v), p, ToUrl);
    StrippedConcat(Translated(Symbols(v), ToUrl), Translated(p, ToUrl));
  }

  /** Translating the padded form and dropping the padding gives the url form. */
  lemma {:induction false} UrlOfPad(s: string)
    ensures Stripped(Translated(PadEncoded(s), ToUrl)) == UrlEncoded(s)
  {
    if s != [] {
      var v, tail := Sextets(s), s[GroupSize(s)..];
      if tail == [] {
        StripsLastGroup(v);
        assert PadTo4(Symbols(v)) + [] == PadTo4(Symbols(v));
        assert Translated(Symbols(v), ToUrl) + [] == Translated(Symbols(v), ToUrl);
      } else {
        UrlOfPad(tail);
        UrlAlphabet(tail);
        StripsLaterGroup(v, PadEncoded(tail), UrlEncoded(tail));
      }
    }
  }

  lemma JoinOctets(a: Octet, b: Octet, c: Octet)
    ensures Or(Or(Shl(a, 16), Shl(b, 8)), c) == 65536 * a + 256 * b + c
  {
    assert Pow2(8) == 256;
    Pow2Add(8, 8);
    OrDisjoint(a, 16, Shl(b, 8));
    assert Shl(256 * a + b, 8) == Shl(a, 16) + Shl(b, 8);
    OrDisjoint(256 * a + b, 8, c);
  }

  lemma PickSextet(n: nat, k: nat, high: nat, v: Sextet, low: nat)
    requires low < Pow2(k) && n == (high * 64 + v) * Pow2(k) + low
    ensures And(Shr(n, k), 63) == v
  {
    assert Pow2(6) == 64;
    DivModUnique(n, Pow2(k), high * 64 + v, low);
    AndMask(n / Pow2(k), 6);
    DivModUnique(high * 64 + v, 64, high, v);
  }

  lemma PowersOf64()
    ensures Pow2(0) == 1 && Pow2(6) == 64 && Pow2(12) == 4096 && Pow2(18) == 262144
  {
    assert Pow2(6) == 64;
    Pow2Add(6, 6);
    Pow2Add(6, 12);
  }

  /** The shifts and masks of the encoder pick the sextets of a 24-bit group. */
  lemma GroupBits(a: Octet, b: Octet, c: Octet)
    ensures
      var n := Or(Or(Shl(a, 16), Shl(b, 8)), c);
      && And(Shr(n, 18), 63) == a / 4
      && And(Shr(n, 12), 63) == a % 4 * 16 + b / 16
      && And(Shr(n, 6), 63) == b % 16 * 4 + c / 64
      && And(n, 63) == c % 64
  {
    JoinOctets(a, b, c);
    PowersOf64();
    var n := 65536 * a + 256 * b + c;
    var v0, v1, v2, v3 := a / 4, a % 4 * 16 + b / 16, b % 16 * 4 + c / 64, c % 64;
    assert n == 262144 * v0 + 4096 * v1 + 64 * v2 + v3;
    PickSextets(n, v0, v1, v2, v3);
  }

  lemma PickSextets(n: nat, v0: Sextet, v1: Sextet, v2: Sextet, v3: Sextet)
    requires n == 262144 * v0 + 4096 * v1 + 64 * v2 + v3
    ensures And(Shr(n, 18), 63) == v0 && And(Shr(n, 12), 63) == v1 && And(Shr(n, 6), 63) == v2 && And(n, 63) == v3
  {
    PowersOf64();
    PickSextet(n, 18, 0, v0, 4096 * v1 + 64 * v2 + v3);
    PickSextet(n, 12, v0, v1, 64 * v2 + v3);
    PickSextet(n, 6, 64 * v0 + v1, v2, v3);
    PickSextet(n, 0, 4096 * v0 + 64 * v1 + v2, v3, 0);
  }

  function Word(rest: string): nat
    requires rest != []
  {
    var n1 := Shl(Byte(rest[0]), 16);
    var n2 := if |rest| > 1 then Or(n1, Shl(Byte(rest[1]), 8)) else n1;
    if |rest| > 2 then Or(n2, Byte(rest[2])) else n2
  }

  /** The word the encoder builds, with the missing bytes of a short group left out, has the
      sextets of the group. */
  lemma WordOfGroup(rest: string)
    requires rest != []
    ensures
      var n := Word(rest);
      var v := Sextets(rest);
      && And(Shr(n, 18), 63) == v[0]
      && And(Shr(n, 12), 63) == v[1]
      && And(Shr(n, 6), 63) < 64 && (|v| > 2 ==> And(Shr(n, 6), 63) == v[2])
      && And(n, 63) < 64 && (|v| > 3 ==> And(n, 63) == v[3])
  {
    var a, b, c := ByteAt(rest, 0), ByteAt(rest, 1), ByteAt(rest, 2);
    OrZero(Shl(a, 16));
    OrZero(Or(Shl(a, 16), Shl(b, 8)));
    assert Word(rest) == Or(Or(Shl(a, 16), Shl(b, 8)), c);
    GroupBits(a, b, c);
  }

  lemma PaddedGroup(v: seq<Sextet>, g: string)
    requires 2 <= |v| <= 4 && |g| == 4
    requires forall i :: 0 <= i < 4 ==> g[i] == if i < |v| then Symbol(v[i]) else '='
    ensures PadTo4(Symbols(v)) == g
  {}

  /** The encoder's four characters for one group. */
  lemma EncoderGroup(rest: string)
    requires rest != []
    ensures
      var n := Word(rest);
      And(Shr(n, 18), 63) < 64 && And(Shr(n, 12), 63) < 64 && And(Shr(n, 6), 63) < 64 && And(n, 63) < 64
    ensures
      var n := Word(rest);
      PadTo4(Symbols(Sextets(rest))) == [
        Symbol(And(Shr(n, 18), 63)), Symbol(And(Shr(n, 12), 63)),
        if |rest| > 1 then Symbol(And(Shr(n, 6), 63)) else '=',
        if |rest| > 2 then Symbol(And(n, 63)) else '=']
  {
    WordOfGroup(rest);
    var n := Word(rest);
    PaddedGroup(Sextets(rest), [
      Symbol(And(Shr(n, 18), 63)), Symbol(And(Shr(n, 12), 63)),
      if |rest| > 1 then Symbol(And(Shr(n, 6), 63)) else '=',
      if |rest| > 2 then Symbol(And(n, 63)) else '=']);
  }

  method EncodePadded(data: string) returns (result: string)
    ensures result == PadEncoded(data)
  {
    result := "";
    var i := 0;
    while i < |data|
      invariant i <= |data| + 2
      invariant result + (if i <= |data| then PadEncoded(data[i..]) else []) == PadEncoded(data)
    {
      var n := Shl(Byte(data[i]), 16);
      if i + 1 < |data| {
        n := Or(n, Shl(Byte(data[i + 1]), 8));
      }
      if i + 2 < |data| {
        n := Or(n, Byte(data[i + 2]));
      }
      ghost var rest := data[i..];
      assert n == Word(rest);
      EncoderGroup(rest);
      var group := [Symbol(And(Shr(n, 18), 63)), Symbol(And(Shr(n, 12), 63)),
                    if i + 1 < |data| then Symbol(And(Shr(n, 6), 63)) else '=',
                    if i + 2 < |data| then Symbol(And(n, 63)) else '='];
      assert rest[GroupSize(rest)..] == if i + 3 <= |data| then data[i + 3..] else [];
      result := result + group;
      i := i + 3;
    }
  }

  method EncodeUrl(data: string) returns (result: string)
    ensures result == UrlEncoded(data)
  {
    result := EncodePadded(data);
    ghost var padded := result;
    var i := 0;
    while i < |result|
      invariant |result| == |padded| && i <= |padded|
      invariant forall j :: 0 <= j < |padded| ==> result[j] == if j < i then ToUrl(padded[j]) else padded[j]
    {
      if result[i] == '+' {
        result := result[i := '-'];
      } else if result[i] == '/' {
        result := result[i := '_'];
      }
      i := i + 1;
    }
    assert result == Translated(padded, ToUrl);
    UrlOfPad(data);
    while result != "" && result[|result| - 1] == '='
      invariant Stripped(result) == UrlEncoded(data)
      decreases |result|
    {
      result := result[..|result| - 1];
    }
  }

  /** The shifts and masks of the decoder put a group's bytes together. */
  lemma DecoderBits(b: Octet, c: Octet, d: Octet)
    requires b < 64 && c < 64 && d < 64
    ensures Or(Shl(c, 2), Shr(b, 4)) == c * 4 + b / 16
    ensures Or(Shl(And(b, 0x0F), 4), Shr(c, 2)) == b % 16 * 16 + c / 4
    ensures Or(Shl(And(c, 0x03), 6), d) == c % 4 * 64 + d
  {
    assert Pow2(2) == 4 && Pow2(4) == 16 && Pow2(6) == 64;
    AndMask(b, 4);
    AndMask(c, 2);
    OrDisjoint(c, 2, b / 16);
    OrDisjoint(b % 16, 4, c / 4);
    OrDisjoint(c % 4, 6, d);
  }

  /** The decoder's expressions on one group, where it evaluates them. */
  lemma DecoderGroup(g: string)
    requires |g| == 4
    ensures
      var a, b, c, d := Value(g[0]), Value(g[1]), Value(g[2]), Value(g[3]);
      && (a != 255 && b != 255 ==> Or(Shl(a, 2), Shr(b, 4)) == a * 4 + b / 16)
      && (b != 255 && c != 255 ==> Or(Shl(And(b, 0x0F), 4), Shr(c, 2)) == b % 16 * 16 + c / 4)
      && (c != 255 && d != 255 ==> Or(Shl(And(c, 0x03), 6), d) == c % 4 * 64 + d)
      && a < 256 && (a != 255 ==> a < 64) && (b != 255 ==> b < 64) && (c != 255 ==> c < 64) && (d != 255 ==> d < 64)
  {
    var a, b, c, d := Value(g[0]), Value(g[1]), Value(g[2]), Value(g[3]);
    if a != 255 && b != 255 { DecoderBits(b, a, 0); }
    if b != 255 && c != 255 { DecoderBits(b, c, 0); }
    if c != 255 && d != 255 { DecoderBits(0, c, d); }
  }

  method DecodeGroup(g: string) returns (bytes: string)
    requires |g| == 4 && Value(g[0]) != 255 && Value(g[1]) != 255
    ensures bytes == GroupBytes(g)
  {
    var a, b, c, d := Value(g[0]), Value(g[1]), Value(g[2]), Value(g[3]);
    DecoderGroup(g);
    bytes := [Chr(Or(Shl(a, 2), Shr(b, 4)))];
    if g[2] != '=' && c != 255 {
      bytes := bytes + [Chr(Or(Shl(And(b, 0x0F), 4), Shr(c, 2)))];
      if g[3] != '=' && d != 255 {
        bytes := bytes + [Chr(Or(Shl(And(c, 0x03), 6), d))];
      }
    }
  }

  lemma DecodedFrom(data: string, i: nat)
    requires i + 3 < |data|
    ensures Value(data[i]) == 255 || Value(data[i + 1]) == 255 ==> PadDecoded(data[i..]) == []
    ensures Value(data[i]) != 255 && Value(data[i + 1]) != 255 ==>
      PadDecoded(data[i..]) == GroupBytes(data[i..i + 4]) + PadDecoded(data[i + 4..])
  {
    assert data[i..][4..] == data[i + 4..];
  }

  method DecodePadded(data: string) returns (result: string)
    ensures result == PadDecoded(data)
  {
    result := "";
    var i := 0;
    while i + 3 < |data|
      invariant i <= |data|
      invariant result + PadDecoded(data[i..]) == PadDecoded(data)
    {
      DecodedFrom(data, i);
      if Value(data[i]) == 255 || Value(data[i + 1]) == 255 {
        return;
      }
      var bytes := DecodeGroup(data[i..i + 4]);
      result := result + bytes;
      i := i + 4;
    }
  }

  method DecodeUrl(input: string) returns (result: string)
    ensures result == UrlDecoded(input)
  {
    var data := input;
    var i := 0;
    while i < |data|
      invariant |data| == |input| && i <= |input|
      invariant forall j :: 0 <= j < |input| ==> data[j] == if j < i then FromUrl(input[j]) else input[j]
    {
      if data[i] == '-' {
        data := data[i := '+'];
      } else if data[i] == '_' {
        data := data[i := '/'];
      }
      i := i + 1;
    }
    assert data == Translated(input, FromUrl);
    ghost var unpadded := data;
    while |data| % 4 != 0
      invariant |data| >= |unpadded| && PadTo4(data) == PadTo4(unpadded)
      decreases (4 - |data| % 4) % 4
    {
      PadOneMore(data);
      data := data + "=";
    }
    result := DecodePadded(data);
  }

  lemma PadOneMore(s: string)
    requires |s| % 4 != 0
    ensures PadTo4(s + "=") == PadTo4(s)
    ensures |s + "="| % 4 == (|s| % 4 + 1) % 4
  {
    assert s + "=" + "==" == s + "===";
    assert s + "=" + "=" == s + "==";
  }
}
