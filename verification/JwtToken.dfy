/** Tokens: how `JwtUtil` prints them, reads their time fields and decides to accept them.

    HMAC-SHA256 is a parameter, any function from key and data to a byte string. The payload
    field scanners are those of `getExp` and `getIat`, which look for a quoted name in the
    decoded payload and read the digits after the next colon.
  */
module JwtToken {
  import opened Base64
  import opened Text

  const INT64_MAX := 0x7fff_ffff_ffff_ffff
  const INT64_MIN := -0x8000_0000_0000_0000

  /** The header names the algorithm. */
  function Header(alg: string): string { "{\"alg\":\"" + alg + "\",\"typ\":\"JWT\"}" }

  const HS256 := "HS256"
  const IAT := "\"iat\""
  const EXP := "\"exp\""
  const BEFORE_IAT := "{\"sub\":\"admin\",\"iat\":"
  const BEFORE_EXP := ",\"exp\":"

  type Hmac = (string, string) -> string

  function Payload(iat: int, exp: int): string {
    BEFORE_IAT + PrintInt(iat) + BEFORE_EXP + PrintInt(exp) + "}"
  }

  /** A header and a payload, encoded and signed. */
  function Joined(hmac: Hmac, secret: string, header: string, payload: string): string {
    var input := UrlEncoded(header) + "." + UrlEncoded(payload);
    input + "." + UrlEncoded(hmac(secret, input))
  }

  /** `sign` with the clock at `now`. */
  function Signed(hmac: Hmac, secret: string, now: int, expireSeconds: int): string {
    Joined(hmac, secret, Header(HS256), Payload(now, now + expireSeconds))
  }

  function SkipBlanks(s: string, from: nat): (p: nat)
    requires from <= |s|
    ensures from <= p <= |s|
    decreases |s| - from
  {
    if from < |s| && (s[from] == ' ' || s[from] == '\t') then SkipBlanks(s, from + 1) else from
  }

  /** The digits after any blanks, 0 if they are no 64-bit number. */
  function NumberAt(s: string, after: nat): int
    requires after <= |s|
  {
    var from := SkipBlanks(s, after);
    match ParseNumber(s[from..DigitsEnd(s, from)], INT64_MIN, INT64_MAX)
    case None => 0
    case Some(n) => n
  }

  /** The first colon after the first occurrence of a quoted field name, -1 if there is none. */
  function ColonOf(payload: string, name: string): (colon: int)
    requires name != []
    ensures colon < |payload|
  {
    var p := FindText(payload, name, 0);
    if p < 0 then -1 else FindChar(payload, ':', p)
  }

  /** The number after a quoted field name, 0 if there is none. */
  function FieldOf(payload: string, name: string): int
    requires name != []
  {
    NumberBehind(payload, ColonOf(payload, name))
  }

  function NumberBehind(payload: string, colon: int): int
    requires colon < |payload|
  {
    if colon < 0 then 0 else NumberAt(payload, colon + 1)
  }

  /** The text between the first two dots, decoded. */
  function PayloadOf(token: string): Option<string> {
    var dot1 := FindChar(token, '.', 0);
    if dot1 < 0 then None
    else
      var dot2 := FindChar(token, '.', dot1 + 1);
      if dot2 < 0 then None else Some(UrlDecoded(token[dot1 + 1..dot2]))
  }

  function TimeField(token: string, name: string): int
    requires name != []
  {
    match PayloadOf(token)
    case None => 0
    case Some(payload) => FieldOf(payload, name)
  }

  function ExpOf(token: string): int { TimeField(token, EXP) }
  function IatOf(token: string): int { TimeField(token, IAT) }

  predicate NoDot(s: string) { Lacks(s, '.') }

  predicate HasParts(token: string, head: string, body: string, sig: string) {
    token == head + "." + body + "." + sig && NoDot(head) && NoDot(body) && NoDot(sig)
  }

  /** The token has exactly three parts, and the last one is the signature of the others. */
  ghost predicate Authentic(hmac: Hmac, token: string, secret: string) {
    exists head, body, sig ::
      HasParts(token, head, body, sig) && sig == UrlEncoded(hmac(secret, head + "." + body))
  }

  /** What `verify` demands of a token. */
  ghost predicate Accepted(hmac: Hmac, token: string, secret: string, now: int, start: int, revoked: bool) {
    && Authentic(hmac, token, secret)
    && ExpOf(token) != 0 && now < ExpOf(token)
    && !(start > 0 && 0 < IatOf(token) < start)
    && !revoked
  }

  lemma DotsOf(head: string, body: string, sig: string)
    requires NoDot(head) && NoDot(body)
    ensures
      var token := head + "." + body + "." + sig;
      && FindChar(token, '.', 0) == |head|
      && FindChar(token, '.', |head| + 1) == |head| + 1 + |body|
      && token[..|head| + 1 + |body|] == head + "." + body
      && token[|head| + 1..|head| + 1 + |body|] == body
      && token[|head| + 2 + |body|..] == sig
      && (NoDot(sig) ==> FindChar(token, '.', |head| + 2 + |body|) < 0)
  {
    var token := head + "." + body + "." + sig;
    SplitsInThree(head, body, sig, '.');
    assert token == head + ['.'] + body + ['.'] + sig;
    if NoDot(sig) { NoDotBehind(head + "." + body + ".", sig); }
  }

  lemma NoDotBehind(s: string, sig: string)
    requires NoDot(sig)
    ensures FindChar(s + sig, '.', |s|) < 0
  {
    forall i | |s| <= i < |s + sig| ensures (s + sig)[i] != '.' { assert (s + sig)[i] == sig[i - |s|]; }
    FindsNoChar(s + sig, '.', |s|);
  }

  lemma DotsSplit(token: string, dot1: nat, dot2: nat)
    requires dot1 == FindChar(token, '.', 0) && dot2 == FindChar(token, '.', dot1 + 1)
    ensures dot1 < dot2 < |token|
    ensures NoDot(token[..dot1]) && NoDot(token[dot1 + 1..dot2])
    ensures token == token[..dot1] + "." + token[dot1 + 1..dot2] + "." + token[dot2 + 1..]
    ensures token[..dot2] == token[..dot1] + "." + token[dot1 + 1..dot2]
  {}

  /** The parts of a token are where its dots are. */
  lemma PartsAreUnique(token: string, head: string, body: string, sig: string)
    requires HasParts(token, head, body, sig)
    ensures
      var dot1 := FindChar(token, '.', 0);
      && dot1 >= 0
      && var dot2 := FindChar(token, '.', dot1 + 1);
      && dot2 >= 0
      && FindChar(token, '.', dot2 + 1) < 0
      && head == token[..dot1] && body == token[dot1 + 1..dot2] && sig == token[dot2 + 1..]
      && token[..dot2] == head + "." + body
  {
    DotsOf(head, body, sig);
    assert token[..|head|] == head;
  }

  method CheckSignature(hmac: Hmac, token: string, secret: string) returns (ok: bool)
    ensures ok <==> Authentic(hmac, token, secret)
  {
    forall head, body, sig | HasParts(token, head, body, sig)
      ensures
        var dot1 := FindChar(token, '.', 0);
        && dot1 >= 0
        && var dot2 := FindChar(token, '.', dot1 + 1);
        && dot2 >= 0
        && FindChar(token, '.', dot2 + 1) < 0
        && sig == token[dot2 + 1..] && token[..dot2] == head + "." + body
    {
      PartsAreUnique(token, head, body, sig);
    }
    var dot1 := FindChar(token, '.', 0);
    if dot1 < 0 {
      return false;
    }
    var dot2 := FindChar(token, '.', dot1 + 1);
    if dot2 < 0 {
      return false;
    }
    if FindChar(token, '.', dot2 + 1) >= 0 {
      return false;
    }
    DotsSplit(token, dot1, dot2);
    assert HasParts(token, token[..dot1], token[dot1 + 1..dot2], token[dot2 + 1..]);
    var expected := EncodeUrl(hmac(secret, token[..dot2]));
    ok := expected == token[dot2 + 1..];
  }

  /** `verify`, given what the blacklist says about the token. */
  method Verify(hmac: Hmac, token: string, secret: string, now: int, start: int, revoked: bool)
    returns (ok: bool)
    ensures ok <==> Accepted(hmac, token, secret, now, start, revoked)
  {
    var signatureOk := CheckSignature(hmac, token, secret);
    if !signatureOk {
      return false;
    }
    var exp := GetTime(token, EXP);
    if exp == 0 || now >= exp {
      return false;
    }
    if start > 0 {
      var iat := GetTime(token, IAT);
      if iat > 0 && iat < start {
        return false;
      }
    }
    return !revoked;
  }

  /** `getExp` and `getIat`, which differ in the name they look for. */
  method GetTime(token: string, name: string) returns (t: int)
    requires name != []
    ensures t == TimeField(token, name)
  {
    var dot1 := FindChar(token, '.', 0);
    if dot1 < 0 {
      return 0;
    }
    var dot2 := FindChar(token, '.', dot1 + 1);
    if dot2 < 0 {
      return 0;
    }
    var payload := DecodeUrl(token[dot1 + 1..dot2]);
    t := ScanField(payload, name);
  }

  method SkipBlanksFrom(s: string, from: nat) returns (pos: nat)
    requires from <= |s|
    ensures pos == SkipBlanks(s, from)
  {
    pos := from;
    while pos < |s| && (s[pos] == ' ' || s[pos] == '\t')
      invariant pos <= |s| && SkipBlanks(s, pos) == SkipBlanks(s, from)
    {
      pos := pos + 1;
    }
  }

  method ScanField(payload: string, name: string) returns (t: int)
    requires name != []
    ensures t == FieldOf(payload, name)
  {
    var found := FindText(payload, name, 0);
    if found < 0 {
      return 0;
    }
    var colon := FindChar(payload, ':', found);
    if colon < 0 {
      return 0;
    }
    assert colon == ColonOf(payload, name);
    t := ScanNumber(payload, colon);
  }

  method ScanNumber(s: string, colon: nat) returns (t: int)
    requires colon < |s|
    ensures t == NumberBehind(s, colon)
  {
    var pos := SkipBlanksFrom(s, colon + 1);
    var end := DigitsEnd(s, pos);
    var number := ParseNumber(s[pos..end], INT64_MIN, INT64_MAX);
    t := if number.None? then 0 else number.value;
  }

  method Sign(hmac: Hmac, secret: string, now: int, expireSeconds: int) returns (token: string)
    ensures token == Signed(hmac, secret, now, expireSeconds)
  {
    var exp := now + expireSeconds;
    token := Join(hmac, secret, Header(HS256), Payload(now, exp));
  }

  method Join(hmac: Hmac, secret: string, header: string, payload: string) returns (token: string)
    ensures token == Joined(hmac, secret, header, payload)
  {
    var headerEnc := EncodeUrl(header);
    var payloadEnc := EncodeUrl(payload);
    var sigInput := headerEnc + "." + payloadEnc;
    var sig := EncodeUrl(hmac(secret, sigInput));
    token := sigInput + "." + sig;
  }

  lemma EncodingsHaveNoDot(s: string)
    ensures NoDot(UrlEncoded(s))
  {
    UrlAlphabet(s);
  }

  /** The time fields of the payload that `sign` prints. */
  lemma PrintedNumberBytes(n: int)
    ensures IsBytes(PrintInt(n)) && PrintInt(n) != []
    ensures forall i :: 0 <= i < |PrintInt(n)| ==> PrintInt(n)[i] == '-' || IsDigit(PrintInt(n)[i])
  {}

  lemma PayloadBytes(iat: int, exp: int)
    ensures IsBytes(Payload(iat, exp))
  {
    PrintedNumberBytes(iat);
    PrintedNumberBytes(exp);
  }

  /** The scanner reads the digits at `from`, up to the first character that is none. */
  lemma ReadsNumber(s: string, from: nat, n: int, rest: string)
    requires from <= |s| && s[from..] == PrintInt(n) + rest
    requires INT64_MIN <= n <= INT64_MAX
    requires rest != [] ==> !IsDigit(rest[0])
    ensures ParseNumber(s[from..DigitsEnd(s, from)], INT64_MIN, INT64_MAX) == if n < 0 then None else Some(n)
  {
    var t := s[from..];
    assert forall i :: 0 <= i < |t| ==> t[i] == s[from + i];
    if n < 0 {
      assert t[0] == '-';
      DigitsEndAt(s, from, from);
    } else {
      var digits := PrintNat(n);
      var end := from + |digits|;
      forall i | from <= i < end ensures IsDigit(s[i]) { assert s[i] == t[i - from] == digits[i - from]; }
      if end < |s| { assert s[end] == t[|digits|] == rest[0]; }
      DigitsEndAt(s, from, end);
      assert s[from..end] == digits + [];
      ParsesPrinted(n, [], INT64_MIN, INT64_MAX);
    }
  }

  predicate NotEarlier(before: string, name: string)
    requires |name| >= 2
  {
    forall i :: 0 <= i < |before| ==> before[i] != name[0] || (before + name)[i + 1] != name[1]
  }

  /** The value of digits, 0 if there are none or it exceeds 2^63 - 1. */
  function DigitsOr0(digits: string): nat {
    if digits != [] && AllDigits(digits) && DigitsValue(digits) <= 0x7fff_ffff_ffff_ffff then DigitsValue(digits) else 0
  }

  /** What the scanner reads of any payload: behind the first occurrence of the name and the first
      colon from there, blanks and tabs aside, the digits up to the first other character, if
      there are any and their value fits 64 bits. */
  lemma ScannerMeans(s: string, name: string, p: nat, colon: nat, from: nat, end: nat)
    requires name != [] && OccursAt(s, name, p) && forall i :: 0 <= i < p ==> !OccursAt(s, name, i)
    requires p <= colon < |s| && s[colon] == ':' && forall i :: p <= i < colon ==> s[i] != ':'
    requires colon < from <= end <= |s| && forall i :: colon < i < from ==> s[i] == ' ' || s[i] == '\t'
    requires from < |s| ==> s[from] != ' ' && s[from] != '\t'
    requires (forall i :: from <= i < end ==> IsDigit(s[i])) && (end < |s| ==> !IsDigit(s[end]))
    ensures FieldOf(s, name) == DigitsOr0(s[from..end])
  {
    ColonMeans(s, name, p, colon);
    NumberBehindMeans(s, colon, from, end);
  }

  lemma NumberBehindMeans(s: string, colon: nat, from: nat, end: nat)
    requires colon < from <= end <= |s| && forall i :: colon < i < from ==> s[i] == ' ' || s[i] == '\t'
    requires from < |s| ==> s[from] != ' ' && s[from] != '\t'
    requires (forall i :: from <= i < end ==> IsDigit(s[i])) && (end < |s| ==> !IsDigit(s[end]))
    ensures NumberBehind(s, colon) == DigitsOr0(s[from..end])
  {
    NumberAtMeans(s, colon + 1, from, end);
  }

  lemma ColonMeans(s: string, name: string, p: nat, colon: nat)
    requires name != [] && OccursAt(s, name, p) && forall i :: 0 <= i < p ==> !OccursAt(s, name, i)
    requires p <= colon < |s| && s[colon] == ':' && forall i :: p <= i < colon ==> s[i] != ':'
    ensures ColonOf(s, name) == colon
  {
    FindTextIsFirst(s, name, 0);
    assert FindText(s, name, 0) == p;
    FindsFirstChar(s, ':', p, colon);
  }

  lemma NumberAtMeans(s: string, k: nat, from: nat, end: nat)
    requires k <= from <= end <= |s| && forall i :: k <= i < from ==> s[i] == ' ' || s[i] == '\t'
    requires from < |s| ==> s[from] != ' ' && s[from] != '\t'
    requires (forall i :: from <= i < end ==> IsDigit(s[i])) && (end < |s| ==> !IsDigit(s[end]))
    ensures NumberAt(s, k) == DigitsOr0(s[from..end])
  {
    SkipsTo(s, k, from);
    DigitsEndAt(s, SkipBlanks(s, k), end);
    DigitsRead(s[SkipBlanks(s, k)..DigitsEnd(s, SkipBlanks(s, k))]);
  }

  lemma DigitsRead(digits: string)
    requires AllDigits(digits)
    ensures ParseNumber(digits, INT64_MIN, INT64_MAX)
      == if digits != [] && DigitsValue(digits) <= INT64_MAX then Some(DigitsValue(digits)) else None
  {
    NumberMeans("", "", digits, "", INT64_MIN, INT64_MAX);
    assert "" + ("" + (digits + "")) == digits;
  }

  lemma {:induction false} SkipsTo(s: string, k: nat, from: nat)
    requires k <= from <= |s| && forall i :: k <= i < from ==> s[i] == ' ' || s[i] == '\t'
    requires from < |s| ==> s[from] != ' ' && s[from] != '\t'
    ensures SkipBlanks(s, k) == from
    decreases from - k
  {
    if k < from { SkipsTo(s, k + 1, from); }
  }

  /** Without the name, or without a colon behind it, the field reads as 0, and so does a token
      with fewer than two dots. */
  lemma ScannerMisses(s: string, name: string)
    requires name != []
    requires (forall i :: 0 <= i < |s| ==> !OccursAt(s, name, i)) ||
             exists p :: 0 <= p < |s| && OccursAt(s, name, p) && (forall i :: 0 <= i < p ==> !OccursAt(s, name, i))
                         && forall i :: p <= i < |s| ==> s[i] != ':'
    ensures FieldOf(s, name) == 0
  {
    FindTextIsFirst(s, name, 0);
    if FindText(s, name, 0) >= 0 { FindsNoChar(s, ':', FindText(s, name, 0)); }
  }

  lemma FewDotsReadZero(a: string, b: string, name: string)
    requires name != [] && Lacks(a, '.') && Lacks(b, '.')
    ensures TimeField(a, name) == 0 && TimeField(a + "." + b, name) == 0
  {
    FindsNoChar(a, '.', 0);
    var s := a + "." + b;
    assert forall i :: 0 <= i < |a| ==> s[i] == a[i];
    FindsFirstChar(s, '.', 0, |a|);
    assert forall i :: |a| < i < |s| ==> s[i] == b[i - |a| - 1];
    FindsNoChar(s, '.', |a| + 1);
  }

  /** A quoted name is found where it stands, if its first two characters do not occur earlier. */
  lemma FindsName(before: string, name: string, after: string)
    requires |name| >= 2 && NotEarlier(before, name)
    ensures FindText(before + name + after, name, 0) == |before|
  {
    var s, p := before + name + after, |before|;
    assert s[p..p + |name|] == name;
    forall i | 0 <= i < p ensures s[i] != name[0] || s[i + 1] != name[1] {
      assert s[i] == before[i] && s[i + 1] == (before + name)[i + 1];
    }
    FindsFirstText(s, name, p);
  }

  lemma FindsColon(before: string, name: string, after: string)
    requires Lacks(name, ':')
    ensures FindChar(before + name + ":" + after, ':', |before|) == |before| + |name|
    ensures (before + name + ":" + after)[|before| + |name| + 1..] == after
  {
    var s, p := before + name + ":" + after, |before|;
    forall i | p <= i < p + |name| ensures s[i] != ':' { assert s[i] == name[i - p]; }
    FindsFirstChar(s, ':', p, p + |name|);
  }

  lemma FindsField(before: string, name: string, tail: string)
    requires |name| >= 2 && Lacks(name, ':') && NotEarlier(before, name)
    ensures ColonOf(before + name + ":" + tail, name) == |before| + |name|
    ensures (before + name + ":" + tail)[|before| + |name| + 1..] == tail
  {
    FindsColon(before, name, tail);
    FindsName(before, name, ":" + tail);
    assert before + name + (":" + tail) == before + name + ":" + tail;
  }

  /** A number printed after "name": is what the scanner reads, a negative one as 0. */
  lemma ReadsField(before: string, name: string, n: int, rest: string)
    requires |name| >= 2 && Lacks(name, ':') && NotEarlier(before, name)
    requires INT64_MIN <= n <= INT64_MAX
    requires rest != [] ==> !IsDigit(rest[0])
    ensures FieldOf(before + name + ":" + (PrintInt(n) + rest), name) == if n < 0 then 0 else n
  {
    FindsField(before, name, PrintInt(n) + rest);
    FieldRead(before + name + ":" + (PrintInt(n) + rest), name, n, rest);
  }

  lemma FieldRead(s: string, name: string, n: int, rest: string)
    requires name != [] && ColonOf(s, name) >= 0
    requires s[ColonOf(s, name) + 1..] == PrintInt(n) + rest
    requires INT64_MIN <= n <= INT64_MAX
    requires rest != [] ==> !IsDigit(rest[0])
    ensures FieldOf(s, name) == if n < 0 then 0 else n
  {
    NumberRead(s, ColonOf(s, name) + 1, n, rest);
  }

  lemma NumberRead(s: string, from: nat, n: int, rest: string)
    requires from <= |s| && s[from..] == PrintInt(n) + rest
    requires INT64_MIN <= n <= INT64_MAX
    requires rest != [] ==> !IsDigit(rest[0])
    ensures NumberAt(s, from) == if n < 0 then 0 else n
  {
    PrintedNumberBytes(n);
    assert s[from] == s[from..][0] == PrintInt(n)[0];
    ReadsNumber(s, from, n, rest);
  }

  const TO_IAT := "{\"sub\":\"admin\","

  lemma QuotesBeforeIat(i: nat)
    requires i < |TO_IAT|
    ensures TO_IAT[i] == '"' ==> (TO_IAT + IAT)[i + 1] != 'i' && (TO_IAT + IAT)[i + 1] != 'e'
  {}

  lemma QuotesBeforeExp(i: nat, iat: string)
    requires forall k :: 0 <= k < |iat| ==> iat[k] == '-' || IsDigit(iat[k])
    requires i < |BEFORE_IAT + iat + ","|
    ensures (BEFORE_IAT + iat + ",")[i] == '"' ==> (BEFORE_IAT + iat + "," + EXP)[i + 1] != 'e'
  {
    var s := BEFORE_IAT + iat + "," + EXP;
    assert BEFORE_IAT == TO_IAT + IAT + ":";
    if i < |TO_IAT| {
      QuotesBeforeIat(i);
      assert s[i + 1] == (TO_IAT + IAT)[i + 1];
    } else if i < |BEFORE_IAT| {
      assert s[|TO_IAT|..|BEFORE_IAT|] == IAT + ":";
      assert s[i] == (IAT + ":")[i - |TO_IAT|];
    } else if i < |BEFORE_IAT| + |iat| {
      assert s[i] == iat[i - |BEFORE_IAT|];
    }
  }

  lemma PayloadIat(iat: int, exp: int)
    requires INT64_MIN <= iat <= INT64_MAX
    ensures FieldOf(Payload(iat, exp), IAT) == if iat < 0 then 0 else iat
  {
    var t, rest := PrintInt(iat), BEFORE_EXP + PrintInt(exp) + "}";
    forall i | 0 <= i < |TO_IAT| ensures TO_IAT[i] != IAT[0] || (TO_IAT + IAT)[i + 1] != IAT[1] {
      QuotesBeforeIat(i);
    }
    ReadsField(TO_IAT, IAT, iat, rest);
    assert BEFORE_IAT == TO_IAT + IAT + ":";
    Regroup(BEFORE_IAT, t, BEFORE_EXP, PrintInt(exp), "}");
  }

  lemma Regroup(a: string, b: string, c: string, d: string, e: string)
    ensures a + b + c + d + e == a + (b + (c + d + e))
  {}

  lemma PayloadExp(iat: int, exp: int)
    requires INT64_MIN <= exp <= INT64_MAX
    ensures FieldOf(Payload(iat, exp), EXP) == if exp < 0 then 0 else exp
  {
    var t, u := PrintInt(iat), PrintInt(exp);
    var before := BEFORE_IAT + t + ",";
    PrintedNumberBytes(iat);
    forall i | 0 <= i < |before| ensures before[i] != EXP[0] || (before + EXP)[i + 1] != EXP[1] {
      QuotesBeforeExp(i, t);
    }
    ReadsField(before, EXP, exp, "}");
    assert BEFORE_EXP == "," + EXP + ":";
    RegroupExp(BEFORE_IAT, t, ",", EXP, ":", u, "}");
  }

  lemma RegroupExp(a: string, b: string, c: string, d: string, e: string, f: string, g: string)
    ensures a + b + (c + d + e) + f + g == a + b + c + d + e + (f + g)
  {}

  /** The fields of a printed payload read back as what was printed, negative times as 0. */
  lemma PayloadFields(iat: int, exp: int)
    requires INT64_MIN <= iat <= INT64_MAX && INT64_MIN <= exp <= INT64_MAX
    ensures FieldOf(Payload(iat, exp), IAT) == if iat < 0 then 0 else iat
    ensures FieldOf(Payload(iat, exp), EXP) == if exp < 0 then 0 else exp
  {
    PayloadIat(iat, exp);
    PayloadExp(iat, exp);
  }

  lemma PayloadOfParts(token: string, head: string, body: string, sig: string)
    requires HasParts(token, head, body, sig)
    ensures PayloadOf(token) == Some(UrlDecoded(body))
  {
    PartsAreUnique(token, head, body, sig);
  }

  lemma JoinedParts(hmac: Hmac, secret: string, header: string, payload: string)
    requires IsBytes(payload)
    ensures Authentic(hmac, Joined(hmac, secret, header, payload), secret)
    ensures PayloadOf(Joined(hmac, secret, header, payload)) == Some(payload)
  {
    var head, body := UrlEncoded(header), UrlEncoded(payload);
    var sig := UrlEncoded(hmac(secret, head + "." + body));
    EncodingsHaveNoDot(header);
    EncodingsHaveNoDot(payload);
    EncodingsHaveNoDot(hmac(secret, head + "." + body));
    assert HasParts(Joined(hmac, secret, header, payload), head, body, sig);
    PayloadOfParts(Joined(hmac, secret, header, payload), head, body, sig);
    UrlRoundTrip(payload);
  }

  lemma SignedParts(hmac: Hmac, secret: string, now: int, expireSeconds: int)
    ensures Authentic(hmac, Signed(hmac, secret, now, expireSeconds), secret)
    ensures PayloadOf(Signed(hmac, secret, now, expireSeconds)) == Some(Payload(now, now + expireSeconds))
  {
    PayloadBytes(now, now + expireSeconds);
    JoinedParts(hmac, secret, Header(HS256), Payload(now, now + expireSeconds));
  }

  lemma HeaderBytes(alg: string)
    requires IsBytes(alg)
    ensures IsBytes(Header(alg))
  {}

  /** The token that `sign` makes: three parts without a dot, of which the first decodes to the
      header, the second to the payload with the two times, and the third is the encoded HMAC
      of the first two. */
  lemma SignedText(hmac: Hmac, secret: string, now: int, expireSeconds: int)
    returns (head: string, body: string, sig: string)
    ensures Signed(hmac, secret, now, expireSeconds) == head + "." + body + "." + sig
    ensures Lacks(head, '.') && Lacks(body, '.') && Lacks(sig, '.')
    ensures UrlDecoded(head) == "{\"alg\":\"HS256\",\"typ\":\"JWT\"}"
    ensures UrlDecoded(body)
      == "{\"sub\":\"admin\",\"iat\":" + PrintInt(now) + ",\"exp\":" + PrintInt(now + expireSeconds) + "}"
    ensures sig == UrlEncoded(hmac(secret, head + "." + body))
  {
    var header, payload := Header(HS256), Payload(now, now + expireSeconds);
    HeaderBytes(HS256);
    PayloadBytes(now, now + expireSeconds);
    head, body, sig := JoinedText(hmac, secret, header, payload);
    HeaderText();
  }

  lemma HeaderText()
    ensures
      var text := "{\"alg\":\"HS256\",\"typ\":\"JWT\"}";
      |Header(HS256)| == |text| && forall i :: 0 <= i < |text| ==> Header(HS256)[i] == text[i]
  {}

  lemma JoinedText(hmac: Hmac, secret: string, header: string, payload: string)
    returns (head: string, body: string, sig: string)
    requires IsBytes(header) && IsBytes(payload)
    ensures Joined(hmac, secret, header, payload) == head + "." + body + "." + sig
    ensures Lacks(head, '.') && Lacks(body, '.') && Lacks(sig, '.')
    ensures UrlDecoded(head) == header && UrlDecoded(body) == payload
    ensures sig == UrlEncoded(hmac(secret, head + "." + body))
  {
    head, body := UrlEncoded(header), UrlEncoded(payload);
    sig := UrlEncoded(hmac(secret, head + "." + body));
    EncodingsHaveNoDot(header);
    EncodingsHaveNoDot(payload);
    EncodingsHaveNoDot(hmac(secret, head + "." + body));
    UrlRoundTrip(header);
    UrlRoundTrip(payload);
  }

  /** The times that `sign` puts into a token are the ones `getIat` and `getExp` read. */
  lemma SignedTimes(hmac: Hmac, secret: string, now: int, expireSeconds: int)
    requires INT64_MIN <= now <= INT64_MAX && INT64_MIN <= now + expireSeconds <= INT64_MAX
    ensures
      var token := Signed(hmac, secret, now, expireSeconds);
      && IatOf(token) == (if now < 0 then 0 else now)
      && ExpOf(token) == (if now + expireSeconds < 0 then 0 else now + expireSeconds)
  {
    SignedParts(hmac, secret, now, expireSeconds);
    PayloadFields(now, now + expireSeconds);
  }

  /** A token signed at t0 is accepted at t1, under the same secret, exactly while it has not
      expired, was not issued before the start time, and is not revoked. An expiry that is not
      positive counts as expired, and an issue time that is not positive as none. */
  lemma SignedTokenAccepted(
    hmac: Hmac, secret: string, t0: int, expireSeconds: int, t1: int, start: int, revoked: bool)
    requires INT64_MIN <= t0 <= INT64_MAX && INT64_MIN <= t0 + expireSeconds <= INT64_MAX
    ensures Accepted(hmac, Signed(hmac, secret, t0, expireSeconds), secret, t1, start, revoked)
      <==> 0 < t0 + expireSeconds && t1 < t0 + expireSeconds && (start <= 0 || t0 <= 0 || start <= t0) && !revoked
  {
    SignedParts(hmac, secret, t0, expireSeconds);
    SignedTimes(hmac, secret, t0, expireSeconds);
  }

  /** At most one token is authentic for a given signing input and secret. */
  lemma OneTokenPerInput(hmac: Hmac, secret: string, token: string, token': string, input: string)
    requires Authentic(hmac, token, secret) && Authentic(hmac, token', secret)
    requires exists sig, sig' ::
      NoDot(sig) && NoDot(sig') && token == input + "." + sig && token' == input + "." + sig'
    ensures token == token'
  {
    var head, body, sig :|
      HasParts(token, head, body, sig) && sig == UrlEncoded(hmac(secret, head + "." + body));
    var head', body', sig' :|
      HasParts(token', head', body', sig') && sig' == UrlEncoded(hmac(secret, head' + "." + body'));
    var rest, rest' :| NoDot(rest) && NoDot(rest') && token == input + "." + rest && token' == input + "." + rest';
    LastDot(head + "." + body, sig, input, rest);
    LastDot(head' + "." + body', sig', input, rest');
  }

  lemma DotNotAfter(a: string, s: string, b: string, t: string)
    requires NoDot(s) && a + "." + s == b + "." + t
    ensures |b| <= |a|
  {
    assert forall i :: |a| < i < |a + "." + s| ==> (a + "." + s)[i] == s[i - |a| - 1];
    assert (b + "." + t)[|b|] == '.';
  }

  lemma LastDot(a: string, s: string, b: string, t: string)
    requires NoDot(s) && NoDot(t) && a + "." + s == b + "." + t
    ensures a == b && s == t
  {
    DotNotAfter(a, s, b, t);
    DotNotAfter(b, t, a, s);
    var whole := a + "." + s;
    assert whole[..|a|] == a && whole[|a| + 1..] == s;
    assert (b + "." + t)[..|b|] == b && (b + "." + t)[|b| + 1..] == t;
  }
}
