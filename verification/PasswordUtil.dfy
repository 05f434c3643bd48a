/** Password records `$pbkdf2-sha256$iterations$salt$hash`: printing, parsing and comparing.

    PBKDF2-HMAC-SHA256 is a parameter that may fail; when it succeeds it fills the buffer it is
    given. The random salt is an input.
  */
module PasswordUtil {
  import opened Bits
  import opened Base64
  import opened Text

  const PREFIX := "$pbkdf2-sha256$"
  const INT_MAX := 0x7fff_ffff
  const INT_MIN := -0x8000_0000
  const DEFAULT_ITERATIONS := 310000
  const HASH_BYTES := 32

  /** Password, salt, iterations and length of the derived key. */
  type Kdf = (string, string, int, nat) -> Option<string>

  ghost predicate FillsBuffer(kdf: Kdf) {
    forall p, s, i, n :: kdf(p, s, i, n).Some? ==> |kdf(p, s, i, n).value| == n && IsBytes(kdf(p, s, i, n).value)
  }

  predicate IsHashed(s: string) {
    |s| > 15 && s[..15] == PREFIX
  }

  datatype Record = Record(iterations: int, salt: string, hash: string)

  function Print(r: Record): string {
    PREFIX + PrintInt(r.iterations) + "$" + PadEncoded(r.salt) + "$" + PadEncoded(r.hash)
  }

  function Parse(encoded: string): Option<Record> {
    if IsHashed(encoded) then ParseRest(encoded[15..]) else None
  }

  function ParseRest(rest: string): Option<Record> {
    var d1 := FindChar(rest, '$', 0);
    if d1 < 0 then None
    else
      var d2 := FindChar(rest, '$', d1 + 1);
      if d2 < 0 then None else ReadFields(rest[..d1], rest[d1 + 1..d2], rest[d2 + 1..])
  }

  function ReadFields(iterations: string, saltText: string, hashText: string): Option<Record> {
    match ParseNumber(iterations, INT_MIN, INT_MAX)
    case None => None
    case Some(n) =>
      var salt, hash := PadDecoded(saltText), PadDecoded(hashText);
      if n <= 0 || salt == [] || hash == [] then None else Some(Record(n, salt, hash))
  }

  /** The three texts of a record and what each of them holds, apart from how they are found. */
  ghost predicate IsRecord(text: string, r: Record, iterations: string, saltText: string, hashText: string) {
    && text == "$pbkdf2-sha256$" + iterations + "$" + saltText + "$" + hashText
    && Lacks(iterations, '$') && Lacks(saltText, '$')
    && ParseNumber(iterations, -0x8000_0000, 0x7fff_ffff) == Some(r.iterations) && r.iterations > 0
    && PadDecoded(saltText) == r.salt != []
    && PadDecoded(hashText) == r.hash != []
  }

  lemma SplitMeans(rest: string, r: Record) returns (a: string, b: string, c: string)
    requires ParseRest(rest) == Some(r)
    ensures rest == a + "$" + b + "$" + c && Lacks(a, '$') && Lacks(b, '$') && ReadFields(a, b, c) == Some(r)
  {
    var d1: nat := FindChar(rest, '$', 0);
    var d2: nat := FindChar(rest, '$', d1 + 1);
    CutInThree(rest, d1, d2, '$');
    PieceLacks(rest, 0, d1, '$');
    PieceLacks(rest, d1 + 1, d2, '$');
    a, b, c := rest[..d1], rest[d1 + 1..d2], rest[d2 + 1..];
  }

  lemma RecordIsParsed(rest: string, r: Record, a: string, b: string, c: string)
    requires rest == a + "$" + b + "$" + c && IsRecord(PREFIX + rest, r, a, b, c)
    ensures Parse(PREFIX + rest) == Some(r)
  {
    SplitRest(a, b, c);
    PrefixJoined(PREFIX, rest);
  }

  lemma ParsedIsRecord(text: string, r: Record) returns (a: string, b: string, c: string)
    requires Parse(text) == Some(r)
    ensures IsRecord(text, r, a, b, c)
  {
    PrefixCut(text, PREFIX);
    a, b, c := SplitMeans(text[15..], r);
    RegroupRecord(a, b, c);
  }

  lemma RegroupRecord(a: string, b: string, c: string)
    ensures PREFIX + (a + "$" + b + "$" + c) == "$pbkdf2-sha256$" + a + "$" + b + "$" + c
  {}

  /** A text is read as a record exactly if it has the prefix and two separators, a positive
      iteration count in front of the first, and a salt and a hash that decode to something. */
  lemma ParsesIff(text: string, r: Record)
    ensures Parse(text) == Some(r) <==> exists a, b, c :: IsRecord(text, r, a, b, c)
  {
    if Parse(text) == Some(r) {
      var a, b, c := ParsedIsRecord(text, r);
    }
    if exists a, b, c :: IsRecord(text, r, a, b, c) {
      var a, b, c :| IsRecord(text, r, a, b, c);
      RegroupRecord(a, b, c);
      RecordIsParsed(a + "$" + b + "$" + c, r, a, b, c);
    }
  }

  /** So a password is refused, whatever it derives, exactly if the text holds no record, and
      otherwise exactly if it does not derive the hash. */
  lemma MatchesIff(kdf: Kdf, password: string, text: string)
    ensures Matches(kdf, password, text) <==>
      exists r, a, b, c :: IsRecord(text, r, a, b, c)
                           && kdf(password, r.salt, r.iterations, |r.hash|) == Some(r.hash)
  {
    if Parse(text).Some? { ParsesIff(text, Parse(text).value); }
    forall r, a, b, c | IsRecord(text, r, a, b, c) ensures Parse(text) == Some(r) { ParsesIff(text, r); }
  }

  /** `verify` in terms of the parsed record. */
  predicate Matches(kdf: Kdf, password: string, encoded: string) {
    match Parse(encoded)
    case None => false
    case Some(r) => kdf(password, r.salt, r.iterations, |r.hash|) == Some(r.hash)
  }

  /** The xor-accumulate loop, which decides equality of two byte strings of equal length. */
  method ConstantTimeEqual(a: string, b: string) returns (equal: bool)
    requires |a| == |b| && IsBytes(a) && IsBytes(b)
    ensures equal <==> a == b
  {
    var diff: nat := 0;
    for i := 0 to |a|
      invariant diff == 0 <==> a[..i] == b[..i]
    {
      var x := Xor(Byte(a[i]), Byte(b[i]));
      XorIsZero(Byte(a[i]), Byte(b[i]));
      OrIsZero(diff, x);
      diff := Or(diff, x);
      assert a[..i + 1] == a[..i] + [a[i]] && b[..i + 1] == b[..i] + [b[i]];
    }
    assert a[..|a|] == a && b[..|a|] == b;
    return diff == 0;
  }

  method Verify(kdf: Kdf, password: string, encoded: string) returns (ok: bool)
    requires FillsBuffer(kdf)
    ensures ok <==> Matches(kdf, password, encoded)
  {
    if !IsHashed(encoded) {
      return false;
    }
    var record := SplitFields(encoded[15..]);
    if record.None? {
      return false;
    }
    ok := CheckDerived(kdf, password, record.value);
  }

  method SplitFields(rest: string) returns (r: Option<Record>)
    ensures r == ParseRest(rest)
    ensures r.Some? ==> IsBytes(r.value.hash)
  {
    var d1 := FindChar(rest, '$', 0);
    if d1 < 0 {
      return None;
    }
    var d2 := FindChar(rest, '$', d1 + 1);
    if d2 < 0 {
      return None;
    }
    r := DecodeFields(rest[..d1], rest[d1 + 1..d2], rest[d2 + 1..]);
  }

  method DecodeFields(iterations: string, saltText: string, hashText: string) returns (r: Option<Record>)
    ensures r == ReadFields(iterations, saltText, hashText)
    ensures r.Some? ==> IsBytes(r.value.hash)
  {
    var n := ParseNumber(iterations, INT_MIN, INT_MAX);
    if n.None? || n.value <= 0 {
      return None;
    }
    var salt := DecodePadded(saltText);
    var hash := DecodePadded(hashText);
    DecodedBytes(hashText);
    if salt == [] || hash == [] {
      return None;
    }
    r := Some(Record(n.value, salt, hash));
  }

  method CheckDerived(kdf: Kdf, password: string, r: Record) returns (ok: bool)
    requires FillsBuffer(kdf) && IsBytes(r.hash)
    ensures ok <==> kdf(password, r.salt, r.iterations, |r.hash|) == Some(r.hash)
  {
    var derived := kdf(password, r.salt, r.iterations, |r.hash|);
    if derived.None? {
      return false;
    }
    ok := ConstantTimeEqual(derived.value, r.hash);
  }

  /** The text that `hash` prints. */
  lemma PrintedText(salt: string, key: string)
    ensures Print(Record(310000, salt, key)) == "$pbkdf2-sha256$310000$" + PadEncoded(salt) + "$" + PadEncoded(key)
  {
    DefaultPrinted();
  }

  lemma DefaultPrinted()
    ensures PrintInt(310000) == "310000"
  {
    assert PrintNat(3) == "3" && PrintNat(31) == "31";
    assert PrintNat(310) == "310" && PrintNat(3100) == "3100" && PrintNat(31000) == "31000";
  }

  /** `hash`, with the salt it has drawn, or the empty string if deriving fails. */
  method Hash(kdf: Kdf, password: string, salt: string) returns (encoded: string)
    ensures
      var derived := kdf(password, salt, 310000, 32);
      encoded == if derived.None? then [] else Print(Record(310000, salt, derived.value))
  {
    var derived := kdf(password, salt, DEFAULT_ITERATIONS, HASH_BYTES);
    if derived.None? {
      return [];
    }
    var saltText := EncodePadded(salt);
    var hashText := EncodePadded(derived.value);
    return PREFIX + PrintInt(DEFAULT_ITERATIONS) + "$" + saltText + "$" + hashText;
  }

  lemma {:induction false} EncodingHasNoDollar(s: string)
    ensures Lacks(PadEncoded(s), '$')
    ensures s != [] ==> PadEncoded(s) != []
  {
    if s != [] {
      var v := Sextets(s);
      forall i | 0 <= i < |v| ensures Symbol(v[i]) != '$' { SymbolValue(v[i]); }
      EncodingHasNoDollar(s[GroupSize(s)..]);
    }
  }

  lemma {:induction false} DecodedBytes(s: string)
    ensures IsBytes(PadDecoded(s))
  {
    if !(|s| < 4 || Value(s[0]) == 255 || Value(s[1]) == 255) { DecodedBytes(s[4..]); }
  }

  lemma PrintedDigits(n: nat)
    ensures Lacks(PrintNat(n), '$')
  {}

  /** Parsing a printed record gives back its iterations, salt and hash. */
  lemma ParsePrinted(r: Record)
    requires 0 < r.iterations <= INT_MAX
    requires r.salt != [] && r.hash != [] && IsBytes(r.salt) && IsBytes(r.hash)
    ensures Parse(Print(r)) == Some(r)
  {
    var rest := PrintInt(r.iterations) + "$" + PadEncoded(r.salt) + "$" + PadEncoded(r.hash);
    assert Print(r) == PREFIX + rest;
    assert Print(r)[..15] == PREFIX && Print(r)[15..] == rest;
    RestOfPrinted(r);
  }

  lemma SplitRest(a: string, b: string, c: string)
    requires Lacks(a, '$') && Lacks(b, '$')
    ensures ParseRest(a + "$" + b + "$" + c) == ReadFields(a, b, c)
  {
    SplitsInThree(a, b, c, '$');
  }

  lemma RestOfPrinted(r: Record)
    requires 0 < r.iterations <= INT_MAX
    requires r.salt != [] && r.hash != [] && IsBytes(r.salt) && IsBytes(r.hash)
    ensures ParseRest(PrintInt(r.iterations) + "$" + PadEncoded(r.salt) + "$" + PadEncoded(r.hash)) == Some(r)
  {
    EncodingHasNoDollar(r.salt);
    PrintedDigits(r.iterations);
    SplitRest(PrintInt(r.iterations), PadEncoded(r.salt), PadEncoded(r.hash));
    FieldsOfPrinted(r);
  }

  lemma FieldsOfPrinted(r: Record)
    requires 0 < r.iterations <= INT_MAX
    requires r.salt != [] && r.hash != [] && IsBytes(r.salt) && IsBytes(r.hash)
    ensures ReadFields(PrintInt(r.iterations), PadEncoded(r.salt), PadEncoded(r.hash)) == Some(r)
  {
    ParsesPrinted(r.iterations, [], INT_MIN, INT_MAX);
    assert PrintNat(r.iterations) + [] == PrintNat(r.iterations);
    PadRoundTrip(r.salt);
    PadRoundTrip(r.hash);
  }

  /** A printed record matches exactly the passwords that derive its hash from its salt. */
  lemma RecordMatches(kdf: Kdf, password: string, r: Record)
    requires 0 < r.iterations <= INT_MAX
    requires r.salt != [] && r.hash != [] && IsBytes(r.salt) && IsBytes(r.hash)
    ensures Matches(kdf, password, Print(r)) <==> kdf(password, r.salt, r.iterations, |r.hash|) == Some(r.hash)
  {
    ParsePrinted(r);
  }

  /** What `hash` prints, if it derives at all, matches its password, and another password
      exactly if both derive the same key. */
  lemma HashVerifies(kdf: Kdf, password: string, salt: string, other: string)
    requires FillsBuffer(kdf) && salt != [] && IsBytes(salt)
    requires kdf(password, salt, DEFAULT_ITERATIONS, HASH_BYTES).Some?
    ensures
      var derived := kdf(password, salt, DEFAULT_ITERATIONS, HASH_BYTES);
      var encoded := Print(Record(DEFAULT_ITERATIONS, salt, derived.value));
      && Matches(kdf, password, encoded)
      && (Matches(kdf, other, encoded) <==> kdf(other, salt, DEFAULT_ITERATIONS, HASH_BYTES) == derived)
  {
    var derived := kdf(password, salt, DEFAULT_ITERATIONS, HASH_BYTES);
    ParsePrinted(Record(DEFAULT_ITERATIONS, salt, derived.value));
  }
}
