/** Parsing and printing of HTTP header blocks. A `std::map` is a sequence of headers with
    strictly increasing keys. */
module HttpHeaders {
  import opened Text

  datatype Header = Header(key: string, value: string)

  predicate IsBreak(c: char) { c == '\r' || c == '\n' }

  /** `boost::split` at line breaks. Compressing adjacent breaks only removes empty lines, which
      the parser skips. */
  function Lines(s: string): (lines: seq<string>)
    ensures lines != []
  {
    if s == [] then [[]]
    else
      var rest := Lines(s[1..]);
      if IsBreak(s[0]) then [[]] + rest else [[s[0]] + rest[0]] + rest[1..]
  }

  function TrimRight(s: string): string {
    if s != [] && IsSpace(s[|s| - 1]) then TrimRight(s[..|s| - 1]) else s
  }

  function Trim(s: string): string { TrimRight(SkipSpaces(s)) }

  function Lower(c: char): char {
    if 'A' <= c <= 'Z' then (c as int + 32) as char else c
  }

  function LowerAll(s: string): (t: string)
    ensures |t| == |s|
  {
    seq(|s|, i requires 0 <= i < |s| => Lower(s[i]))
  }

  /** `headers[key] = value` */
  function Assign(m: seq<Header>, key: string, value: string): seq<Header> {
    if m == [] then [Header(key, value)]
    else if m[0].key == key then [Header(key, value)] + m[1..]
    else if Less(key, m[0].key) then [Header(key, value)] + m
    else [m[0]] + Assign(m[1..], key, value)
  }

  function ParseLine(m: seq<Header>, line: string): seq<Header> {
    var colon := FindChar(line, ':', 0);
    if colon < 0 then m
    else
      var key, value := Trim(line[..colon]), Trim(line[colon + 1..]);
      if key == [] || value == [] then m else Assign(m, LowerAll(key), value)
  }

  function ParseLines(m: seq<Header>, lines: seq<string>): seq<Header>
    decreases |lines|
  {
    if lines == [] then m else ParseLines(ParseLine(m, lines[0]), lines[1..])
  }

  function Parse(s: string, m: seq<Header>): seq<Header> {
    ParseLines(m, Lines(s))
  }

  function PrintHeader(h: Header): string { h.key + ": " + h.value + "\r\n" }

  function Print(m: seq<Header>): string {
    if m == [] then [] else PrintHeader(m[0]) + Print(m[1..])
  }

  predicate NoBreak(s: string) {
    forall i :: 0 <= i < |s| ==> !IsBreak(s[i])
  }

  predicate Trimmed(s: string) {
    s != [] && !IsSpace(s[0]) && !IsSpace(s[|s| - 1])
  }

  /** What the parser stores: a trimmed lower-case key without colon, a trimmed value, neither
      empty nor with a line break. */
  predicate Normal(h: Header) {
    && Trimmed(h.key) && Trimmed(h.value)
    && LowerAll(h.key) == h.key && Lacks(h.key, ':')
    && NoBreak(h.key) && NoBreak(h.value)
  }

  predicate Normalized(m: seq<Header>) {
    && (forall i :: 0 <= i < |m| ==> Normal(m[i]))
    && (forall i, j :: 0 <= i < j < |m| ==> Less(m[i].key, m[j].key))
  }

  method ParseHeaders(headerStr: string, headers: seq<Header>) returns (m: seq<Header>)
    ensures m == Parse(headerStr, headers)
  {
    m := headers;
    if headerStr == "" {
      assert Lines([])[1..] == [];
      return;
    }
    var lines := Lines(headerStr);
    var i := 0;
    while i < |lines|
      invariant i <= |lines|
      invariant ParseLines(m, lines[i..]) == ParseLines(headers, lines)
    {
      m := StoreLine(m, lines[i]);
      i := i + 1;
    }
  }

  method StoreLine(headers: seq<Header>, line: string) returns (m: seq<Header>)
    ensures m == ParseLine(headers, line)
  {
    m := headers;
    if line == "" { return; }
    var colonPos := FindChar(line, ':', 0);
    if colonPos >= 0 {
      var key := Trim(line[..colonPos]);
      var value := Trim(line[colonPos + 1..]);
      if key != "" && value != "" {
        m := Assign(m, LowerAll(key), value);
      }
    }
  }

  method BuildHeadersString(headers: seq<Header>) returns (s: string)
    ensures s == Print(headers)
  {
    s := "";
    var i := 0;
    while i < |headers|
      invariant i <= |headers| && s + Print(headers[i..]) == Print(headers)
    {
      assert headers[i..][1..] == headers[i + 1..];
      s := s + headers[i].key + ": " + headers[i].value + "\r\n";
      i := i + 1;
    }
  }

  lemma {:induction false} LinesHaveNoBreak(s: string)
    ensures forall i :: 0 <= i < |Lines(s)| ==> NoBreak(Lines(s)[i])
  {
    if s != [] { LinesHaveNoBreak(s[1..]); }
  }

  lemma {:induction false} LinesAfterBreak(line: string, rest: string)
    requires NoBreak(line)
    ensures Lines(line + "\r\n" + rest) == [line, []] + Lines(rest)
  {
    var s := line + "\r\n" + rest;
    if line == [] {
      assert s[1..][1..] == rest;
      assert Lines(s[1..]) == [[]] + Lines(rest);
    } else {
      assert s[1..] == line[1..] + "\r\n" + rest;
      LinesAfterBreak(line[1..], rest);
      assert Lines(s) == [[s[0]] + line[1..]] + ([[]] + Lines(rest));
      assert [s[0]] + line[1..] == line;
    }
  }

  lemma {:induction false} TrimRightMeans(s: string)
    ensures var t := TrimRight(s); |t| <= |s| && t == s[..|t|] && (t != [] ==> !IsSpace(t[|t| - 1]))
  {
    if s != [] && IsSpace(s[|s| - 1]) { TrimRightMeans(s[..|s| - 1]); }
  }

  lemma {:induction false} SkipSpacesMeans(s: string)
    ensures var t := SkipSpaces(s); |t| <= |s| && t == s[|s| - |t|..] && (t != [] ==> !IsSpace(t[0]))
  {
    if s != [] && IsSpace(s[0]) { SkipSpacesMeans(s[1..]); }
  }

  /** Trimming leaves a trimmed piece of the text, or nothing. */
  lemma TrimMeans(s: string) returns (i: nat, j: nat)
    ensures i <= j <= |s| && Trim(s) == s[i..j]
    ensures Trim(s) == [] || Trimmed(Trim(s))
  {
    var t := SkipSpaces(s);
    SkipSpacesMeans(s);
    TrimRightMeans(t);
    i := |s| - |t|;
    j := i + |TrimRight(t)|;
    Piece(s, i, |TrimRight(t)|);
  }

  lemma Piece(s: string, i: nat, n: nat)
    requires i + n <= |s|
    ensures s[i..][..n] == s[i..i + n]
  {}

  lemma PieceKeeps(s: string, i: nat, j: nat)
    requires i <= j <= |s|
    ensures Lacks(s, ':') ==> Lacks(s[i..j], ':')
    ensures NoBreak(s) ==> NoBreak(s[i..j])
  {
    assert forall k :: 0 <= k < j - i ==> s[i..j][k] == s[i + k];
  }

  /** Trimming takes off the white space at both ends, all of it and nothing else. */
  lemma TrimTakes(before: string, text: string, after: string)
    requires IsBlank(before) && IsBlank(after) && (text == [] || Trimmed(text))
    ensures Trim(before + text + after) == text
  {
    if text == [] {
      assert before + text + after == (before + after) + [];
      SkipsBlank(before + after, []);
    } else {
      assert before + text + after == before + (text + after);
      assert (text + after)[0] == text[0];
      SkipsBlank(before, text + after);
      TrimsRight(text, after);
    }
  }

  lemma {:induction false} TrimsRight(text: string, after: string)
    requires Trimmed(text) && IsBlank(after)
    ensures TrimRight(text + after) == text
  {
    if after == [] {
      assert text + after == text;
    } else {
      var n := |after| - 1;
      assert (text + after)[..|text| + n] == text + after[..n];
      TrimsRight(text, after[..n]);
    }
  }

  lemma LowerMeans(s: string, i: nat)
    requires i < |s|
    ensures LowerAll(s)[i] as int == s[i] as int + if 65 <= s[i] as int <= 90 then 32 else 0
  {}

  /** What any line does: without a colon nothing, and otherwise the text on its left, trimmed and
      in lower case, gets the text on its right, trimmed, unless one of them is empty. */
  lemma LineMeans(m: seq<Header>, left: string, right: string)
    requires Lacks(left, ':')
    ensures ParseLine(m, left) == m
    ensures ParseLine(m, left + ":" + right)
      == if Trim(left) == [] || Trim(right) == [] then m else Assign(m, LowerAll(Trim(left)), Trim(right))
  {
    var line := left + ":" + right;
    FindsNoChar(left, ':', 0);
    assert forall i :: 0 <= i < |left| ==> line[i] == left[i];
    FindsFirstChar(line, ':', 0, |left|);
    assert line[..|left|] == left && line[|left| + 1..] == right;
  }

  /** In particular the white space around a name and a value does not matter, nor does its
      absence, and a line with no name or no value is dropped. */
  lemma FieldMeans(m: seq<Header>, a: string, name: string, b: string, c: string, value: string, d: string)
    requires IsBlank(a) && IsBlank(b) && IsBlank(c) && IsBlank(d) && Lacks(name, ':')
    requires (name == [] || Trimmed(name)) && (value == [] || Trimmed(value))
    ensures ParseLine(m, a + name + b + ":" + (c + value + d))
      == if name == [] || value == [] then m else Assign(m, LowerAll(name), value)
  {
    LineMeans(m, a + name + b, c + value + d);
    TrimTakes(a, name, b);
    TrimTakes(c, value, d);
  }

  /** Either character of a line break ends a line. */
  lemma {:induction false} LineEnds(line: string, c: char, rest: string)
    requires (forall i :: 0 <= i < |line| ==> line[i] != '\r' && line[i] != '\n') && (c == '\r' || c == '\n')
    ensures Lines(line) == [line]
    ensures Lines(line + [c] + rest) == [line] + Lines(rest)
  {
    if line == [] {
      assert (line + [c] + rest)[1..] == rest;
    } else {
      LineEnds(line[1..], c, rest);
      assert (line + [c] + rest)[1..] == line[1..] + [c] + rest;
      assert [line[0]] + line[1..] == line;
    }
  }

  /** So a text is read line by line. */
  lemma TextMeans(m: seq<Header>, line: string, c: char, rest: string)
    requires (forall i :: 0 <= i < |line| ==> line[i] != '\r' && line[i] != '\n') && (c == '\r' || c == '\n')
    ensures Parse(line, m) == ParseLine(m, line)
    ensures Parse(line + [c] + rest, m) == Parse(rest, ParseLine(m, line))
  {
    LineEnds(line, c, rest);
    assert [line][1..] == [] && ([line] + Lines(rest))[1..] == Lines(rest);
    assert ParseLines(m, [line]) == ParseLines(ParseLine(m, line), [line][1..]);
  }

  /** The text printed for a map is one line after the other. */
  lemma {:induction false} PrintsInOrder(m: seq<Header>, h: Header)
    ensures Print([]) == ""
    ensures Print(m + [h]) == Print(m) + h.key + ": " + h.value + "\r\n"
  {
    if m == [] {
      assert m + [h] == [h] && [h][1..] == [];
    } else {
      assert (m + [h])[1..] == m[1..] + [h];
      PrintsInOrder(m[1..], h);
    }
  }

  lemma TrimKeeps(s: string)
    requires Trimmed(s)
    ensures Trim(s) == s && Trim(" " + s) == s
  {
    assert (" " + s)[1..] == s;
  }

  lemma LowerIsStable(s: string)
    ensures LowerAll(LowerAll(s)) == LowerAll(s)
    ensures Trimmed(s) ==> Trimmed(LowerAll(s))
    ensures NoBreak(s) ==> NoBreak(LowerAll(s))
    ensures Lacks(s, ':') ==> Lacks(LowerAll(s), ':')
  {}

  lemma {:induction false} AssignKeepsNormal(m: seq<Header>, key: string, value: string)
    requires Normalized(m) && Normal(Header(key, value))
    ensures Normalized(Assign(m, key, value))
    ensures forall h :: h in Assign(m, key, value) ==> h in m || h == Header(key, value)
  {
    var h := Header(key, value);
    if m == [] {
      PrependKeepsNormal(h, []);
    } else {
      LessTotal(key, m[0].key);
      if m[0].key == key {
        PrependKeepsNormal(h, m[1..]);
      } else if Less(key, m[0].key) {
        forall j | 0 <= j < |m| ensures Less(key, m[j].key) {
          if j > 0 { LessTransitive(key, m[0].key, m[j].key); }
        }
        PrependKeepsNormal(h, m);
      } else {
        AssignKeepsNormal(m[1..], key, value);
        PrependKeepsNormal(m[0], Assign(m[1..], key, value));
      }
    }
  }

  lemma PrependKeepsNormal(h: Header, m: seq<Header>)
    requires Normal(h) && Normalized(m)
    requires forall k :: k in m ==> Less(h.key, k.key)
    ensures Normalized([h] + m)
  {}

  lemma LineKeepsNormal(m: seq<Header>, line: string)
    requires Normalized(m) && NoBreak(line)
    ensures Normalized(ParseLine(m, line))
  {
    var colon := FindChar(line, ':', 0);
    if colon >= 0 {
      var left, right := line[..colon], line[colon + 1..];
      var key, value := Trim(left), Trim(right);
      if key != [] && value != [] {
        SidesAreNormal(left, right);
        AssignKeepsNormal(m, LowerAll(key), value);
      }
    }
  }

  /** The two sides of a colon, trimmed, make a normal header unless one is empty. */
  lemma SidesAreNormal(left: string, right: string)
    requires Lacks(left, ':') && NoBreak(left) && NoBreak(right)
    requires Trim(left) != [] && Trim(right) != []
    ensures Normal(Header(LowerAll(Trim(left)), Trim(right)))
  {
    var i, j := TrimMeans(left);
    var i', j' := TrimMeans(right);
    PieceKeeps(left, i, j);
    PieceKeeps(right, i', j');
    LowerIsStable(Trim(left));
  }

  /** Whatever is parsed into a normalized map, the result is normalized. */
  lemma {:induction false} LinesKeepNormal(m: seq<Header>, lines: seq<string>)
    requires Normalized(m) && forall i :: 0 <= i < |lines| ==> NoBreak(lines[i])
    ensures Normalized(ParseLines(m, lines))
    decreases |lines|
  {
    if lines != [] {
      LineKeepsNormal(m, lines[0]);
      LinesKeepNormal(ParseLine(m, lines[0]), lines[1..]);
    }
  }

  lemma ParseNormalizes(s: string, m: seq<Header>)
    requires Normalized(m)
    ensures Normalized(Parse(s, m))
  {
    LinesHaveNoBreak(s);
    LinesKeepNormal(m, Lines(s));
  }

  lemma {:induction false} AssignLast(m: seq<Header>, h: Header)
    requires forall i :: 0 <= i < |m| ==> Less(m[i].key, h.key)
    ensures Assign(m, h.key, h.value) == m + [h]
  {
    if m != [] {
      LessTotal(m[0].key, h.key);
      AssignLast(m[1..], h);
    }
  }

  lemma SplitsAtColon(key: string, value: string)
    requires Lacks(key, ':')
    ensures
      var line := key + ": " + value;
      FindChar(line, ':', 0) == |key| && line[..|key|] == key && line[|key| + 1..] == " " + value
  {
    FindsFirstChar(key + ": " + value, ':', 0, |key|);
  }

  /** A printed header is parsed back to itself. */
  lemma ParsesPrintedLine(m: seq<Header>, h: Header)
    requires Normal(h) && forall i :: 0 <= i < |m| ==> Less(m[i].key, h.key)
    ensures ParseLine(m, h.key + ": " + h.value) == m + [h]
  {
    SplitsAtColon(h.key, h.value);
    TrimKeeps(h.key);
    TrimKeeps(h.value);
    AssignLast(m, h);
  }

  lemma NextIsNormal(done: seq<Header>, rest: seq<Header>)
    requires Normalized(done + rest) && rest != []
    ensures Normal(rest[0]) && forall i :: 0 <= i < |done| ==> Less(done[i].key, rest[0].key)
    ensures done + [rest[0]] + rest[1..] == done + rest
  {
    var all := done + rest;
    assert all[|done|] == rest[0];
    forall i | 0 <= i < |done| ensures Less(done[i].key, rest[0].key) {
      assert all[i] == done[i];
    }
  }

  lemma {:induction false} ParsesPrintedFrom(done: seq<Header>, rest: seq<Header>)
    requires Normalized(done + rest)
    ensures ParseLines(done, Lines(Print(rest))) == done + rest
    decreases |rest|
  {
    if rest == [] {
      assert Lines([]) == [""] && Lines([])[1..] == [];
      assert done + rest == done;
    } else {
      var h := rest[0];
      NextIsNormal(done, rest);
      ParsesPrintedLine(done, h);
      PrintedLines(h, rest[1..]);
      ParsesLineAndBlank(done, h.key + ": " + h.value, Lines(Print(rest[1..])));
      ParsesPrintedFrom(done + [h], rest[1..]);
    }
  }

  lemma ParsesLineAndBlank(m: seq<Header>, line: string, lines: seq<string>)
    ensures ParseLines(m, [line, []] + lines) == ParseLines(ParseLine(m, line), lines)
  {
    assert ([line, []] + lines)[1..] == [[]] + lines;
    assert ([[]] + lines)[1..] == lines;
  }

  lemma PrintedLines(h: Header, rest: seq<Header>)
    requires Normal(h)
    ensures Lines(PrintHeader(h) + Print(rest)) == [h.key + ": " + h.value, []] + Lines(Print(rest))
  {
    var line := h.key + ": " + h.value;
    assert PrintHeader(h) + Print(rest) == line + "\r\n" + Print(rest);
    LinesAfterBreak(line, Print(rest));
  }

  /** Printing a normalized map and parsing the result is the identity. */
  lemma PrintThenParse(m: seq<Header>)
    requires Normalized(m)
    ensures Parse(Print(m), []) == m
  {
    assert [] + m == m;
    ParsesPrintedFrom([], m);
  }

  /** Whatever is parsed, printing and parsing again changes nothing. */
  lemma ParsePrintParse(s: string)
    ensures Parse(Print(Parse(s, [])), []) == Parse(s, [])
  {
    ParseNormalizes(s, []);
    PrintThenParse(Parse(s, []));
  }

  function Lookup(m: seq<Header>, key: string): Option<string> {
    if m == [] then None else if m[0].key == key then Some(m[0].value) else Lookup(m[1..], key)
  }

  lemma {:induction false} AssignMeans(m: seq<Header>, key: string, value: string, other: string)
    ensures Lookup(Assign(m, key, value), other) == if other == key then Some(value) else Lookup(m, other)
  {
    if m != [] && m[0].key != key {
      LessTotal(key, m[0].key);
      if Less(key, m[0].key) {
        assert ([Header(key, value)] + m)[1..] == m;
      } else {
        AssignMeans(m[1..], key, value, other);
        assert Assign(m, key, value)[1..] == Assign(m[1..], key, value);
      }
    }
  }

  lemma {:induction false} ParseLinesConcat(m: seq<Header>, lines: seq<string>, line: string)
    ensures ParseLines(m, lines + [line]) == ParseLine(ParseLines(m, lines), line)
    decreases |lines|
  {
    if lines == [] {
      assert lines + [line] == [line] && [line][1..] == [];
    } else {
      assert (lines + [line])[1..] == lines[1..] + [line];
      ParseLinesConcat(ParseLine(m, lines[0]), lines[1..], line);
    }
  }

  /** Names are compared without case, the last line for a name wins, and it leaves the other
      names alone. */
  lemma LastLineWins(lines: seq<string>, name: string, value: string, other: string)
    requires Trimmed(name) && Trimmed(value) && Lacks(name, ':')
    ensures
      var before, after := ParseLines([], lines), ParseLines([], lines + [name + ": " + value]);
      Lookup(after, other) == if other == LowerAll(name) then Some(value) else Lookup(before, other)
  {
    var line := name + ": " + value;
    ParseLinesConcat([], lines, line);
    SplitsAtColon(name, value);
    TrimKeeps(name);
    TrimKeeps(value);
    AssignMeans(ParseLines([], lines), LowerAll(name), value, other);
  }
}
