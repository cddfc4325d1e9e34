/** Message framing of the language-server client: the frame a message is sent in, and the loop that reads
    frames back (Language Server Protocol 3.17, "Base Protocol", Header Part). */
module Framing {
  import opened Wrappers
  import opened Whitespace
  import Decimal

  /** Bytes are characters below 256. */
  type Bytes = string

  const LF: char := '\n'
  const REPLACEMENT: char := '\U{FFFD}'
  const HEADER: string := "Content-Length: "

  // ----- Sending -----

  /** `_send`: header, blank line, body. */
  function Frame(body: Bytes): Bytes {
    HEADER + Decimal.Print(|body|) + "\r\n" + "\r\n" + body
  }

  function Frames(bodies: seq<Bytes>): Bytes {
    if bodies == [] then "" else Frame(bodies[0]) + Frames(bodies[1..])
  }

  // ----- Reading one line -----

  /** `readline`: up to and including the first newline, or all that is left. */
  function LineEnd(s: Bytes): (n: nat)
    ensures n <= |s|
    ensures s != "" ==> n > 0
    ensures forall i :: 0 <= i < n - 1 ==> s[i] != LF
    ensures n < |s| ==> n > 0 && s[n - 1] == LF
  {
    if s == "" then 0
    else if s[0] == LF then 1
    else 1 + LineEnd(s[1..])
  }

  lemma {:induction false} LineEndOf(line: Bytes, rest: Bytes)
    requires forall i :: 0 <= i < |line| ==> line[i] != LF
    ensures LineEnd(line + [LF] + rest) == |line| + 1
  {
    var s := line + [LF] + rest;
    if line != "" {
      assert s[1..] == line[1..] + [LF] + rest;
      LineEndOf(line[1..], rest);
    }
  }

  // ----- Header fields -----

  /** `decode("ascii", errors="replace")` keeps ASCII and replaces every other byte. */
  function Decoded(line: Bytes): (s: string)
    ensures |s| == |line|
  {
    seq(|line|, i requires 0 <= i < |line| => if (line[i] as int) < 128 then line[i] else REPLACEMENT)
  }

  function Lower(s: string): (r: string)
    ensures |r| == |s|
  {
    seq(|s|, i requires 0 <= i < |s| =>
      if 'A' <= s[i] <= 'Z' then (s[i] as int + 32) as char else s[i])
  }

  /** The position of the first colon, or the length. */
  function Colon(s: string): (n: nat)
    ensures n <= |s|
    ensures n < |s| ==> s[n] == ':'
    ensures forall i :: 0 <= i < n ==> s[i] != ':'
  {
    if s == "" || s[0] == ':' then 0 else 1 + Colon(s[1..])
  }

  /** A header line sets one field, unless it has no colon. */
  function WithLine(headers: map<string, string>, line: Bytes): map<string, string> {
    var decoded := Strip(Decoded(line));
    var n := Colon(decoded);
    if n == |decoded| then headers
    else headers[Lower(decoded[..n]) := Strip(decoded[n + 1..])]
  }

  /** `int()` of a stripped text: an optional sign, then digits with single underscores between them. */
  function Digits(s: string): Option<string> {
    if s == "" then None
    else if !Decimal.IsDigit(s[|s| - 1]) then None
    else if |s| == 1 then Some(s)
    else
      var rest := if s[|s| - 2] == '_' then s[..|s| - 2] else s[..|s| - 1];
      var init := Digits(rest);
      if init.Some? then Some(init.value + [s[|s| - 1]]) else None
  }

  lemma {:induction false} DigitsAreDigits(s: string)
    ensures Digits(s).Some? ==> Decimal.AllDigits(Digits(s).value)
    ensures s != "" && Decimal.AllDigits(s) ==> Digits(s) == Some(s)
    decreases |s|
  {
    if |s| > 1 && Decimal.IsDigit(s[|s| - 1]) {
      DigitsAreDigits(if s[|s| - 2] == '_' then s[..|s| - 2] else s[..|s| - 1]);
      assert s == s[..|s| - 1] + [s[|s| - 1]];
    }
  }

  function ParseInt(s: string): Option<int> {
    var negative := s != "" && s[0] == '-';
    var unsigned := if s != "" && (s[0] == '-' || s[0] == '+') then s[1..] else s;
    var digits := Digits(unsigned);
    DigitsAreDigits(unsigned);
    if digits.None? then None
    else
      var value: int := Decimal.Value(digits.value);
      Some(if negative then -value else value)
  }

  /** The length a finished header announces; none when it is not a number. */
  function ContentLength(headers: map<string, string>): Option<int> {
    ParseInt(if "content-length" in headers then headers["content-length"] else "0")
  }

  // ----- Reading the stream -----

  predicate IsBlank(line: Bytes) {
    line == "\r\n" || line == "\n"
  }

  /** Read header lines up to the blank one: the fields and the unread rest, or nothing at the end of the
      stream. */
  function ReadHeader(s: Bytes, headers: map<string, string>): (r: Option<(map<string, string>, Bytes)>)
    ensures r.Some? ==> |r.value.1| < |s|
    decreases |s|
  {
    if s == "" then None
    else
      var n := LineEnd(s);
      if IsBlank(s[..n]) then Some((headers, s[n..]))
      else ReadHeader(s[n..], WithLine(headers, s[..n]))
  }

  function Take(s: Bytes, n: nat): Bytes {
    if n <= |s| then s[..n] else s
  }

  function Drop(s: Bytes, n: nat): Bytes {
    if n <= |s| then s[n..] else ""
  }

  /** The payloads `_read_loop` hands to the JSON decoder, until the stream ends. */
  function Payloads(s: Bytes): seq<Bytes>
    decreases |s|
  {
    var header := ReadHeader(s, map[]);
    if header.None? then []
    else
      var (fields, rest) := header.value;
      var length := ContentLength(fields);
      if length.None? || length.value <= 0 then Payloads(rest)
      else [Take(rest, length.value)] + Payloads(Drop(rest, length.value))
  }

  // ----- Headers of several fields -----

  /** A header line: it ends with its only line feed, a carriage return before it or not, and is not the blank one. */
  predicate IsHeaderLine(line: Bytes) {
    && line != "" && line[|line| - 1] == LF && !IsBlank(line)
    && forall i :: 0 <= i < |line| - 1 ==> line[i] != LF
  }

  /** ASCII white space. */
  predicate IsGap(s: Bytes) {
    forall i :: 0 <= i < |s| ==> IsSpace(s[i]) && (s[i] as int) < 128
  }

  /** "Content-Length" in capital or small letters or any mixture of the two. */
  predicate IsLengthName(name: Bytes) {
    && |name| == 14
    && forall i :: 0 <= i < 14 ==>
         var c := "content-length"[i];
         name[i] == c || ('a' <= c <= 'z' && name[i] as int + 32 == c as int)
  }

  /** The line `lead name:gap value trail`. */
  function FieldLine(lead: Bytes, name: Bytes, gap: Bytes, value: Bytes, trail: Bytes): Bytes {
    lead + (name + ":" + (gap + value)) + trail
  }

  /** ASCII text without white space around it. */
  predicate IsTight(value: Bytes) {
    && value != "" && !IsSpace(value[0]) && !IsSpace(value[|value| - 1])
    && forall i :: 0 <= i < |value| ==> (value[i] as int) < 128
  }

  /** The line is a Content-Length field with this value. */
  ghost predicate Gives(line: Bytes, value: Bytes) {
    exists lead, name, gap, trail ::
      && line == FieldLine(lead, name, gap, value, trail)
      && IsGap(lead) && IsLengthName(name) && IsGap(gap) && IsGap(trail) && IsTight(value)
  }

  /** Groups of digits, with single underscores between them. */
  function Underscored(groups: seq<string>): string {
    if groups == [] then ""
    else if |groups| == 1 then groups[0]
    else Underscored(groups[..|groups| - 1]) + "_" + groups[|groups| - 1]
  }

  function AllOf(groups: seq<string>): string {
    if groups == [] then "" else AllOf(groups[..|groups| - 1]) + groups[|groups| - 1]
  }

  predicate AreGroups(groups: seq<string>) {
    groups != [] && forall k :: 0 <= k < |groups| ==> groups[k] != "" && Decimal.AllDigits(groups[k])
  }

  /** A numeral: groups of digits behind a sign or none. */
  ghost predicate Denotes(value: Bytes, n: int) {
    exists groups, sign ::
      && AreGroups(groups) && sign in {"", "+", "-"} && value == sign + Underscored(groups)
      && Decimal.AllDigits(AllOf(groups))
      && n == if sign == "-" then -(Decimal.Value(AllOf(groups)) as int) else Decimal.Value(AllOf(groups))
  }

  /** The line has the name Content-Length before its first colon, whatever follows. */
  ghost predicate NamesLength(line: Bytes) {
    exists k :: 0 <= k && k + 14 < |line|
      && IsGap(line[..k]) && IsLengthName(line[k..k + 14]) && line[k + 14] == ':'
  }

  function Flat(lines: seq<Bytes>): Bytes {
    if lines == [] then "" else lines[0] + Flat(lines[1..])
  }

  function WithLines(headers: map<string, string>, lines: seq<Bytes>): map<string, string>
    decreases |lines|
  {
    if lines == [] then headers else WithLines(WithLine(headers, lines[0]), lines[1..])
  }

  lemma {:induction false} ReadsOneLine(line: Bytes, s: Bytes, headers: map<string, string>)
    requires IsHeaderLine(line)
    ensures ReadHeader(line + s, headers) == ReadHeader(s, WithLine(headers, line))
  {
    var text := line[..|line| - 1];
    assert line + s == text + [LF] + s;
    LineEndOf(text, s);
    assert (line + s)[..|line|] == line && (line + s)[|line|..] == s;
  }

  lemma {:induction false} ReadsBlank(blank: Bytes, s: Bytes, headers: map<string, string>)
    requires IsBlank(blank)
    ensures ReadHeader(blank + s, headers) == Some((headers, s))
  {
    var text := blank[..|blank| - 1];
    assert blank + s == text + [LF] + s;
    LineEndOf(text, s);
    assert (blank + s)[..|blank|] == blank && (blank + s)[|blank|..] == s;
  }

  /** Every line of a header counts, up to the blank one and no further. */
  lemma {:induction false} ReadsLines(lines: seq<Bytes>, blank: Bytes, s: Bytes, headers: map<string, string>)
    requires (forall line :: line in lines ==> IsHeaderLine(line)) && IsBlank(blank)
    ensures ReadHeader(Flat(lines) + (blank + s), headers) == Some((WithLines(headers, lines), s))
    decreases |lines|
  {
    if lines == [] {
      assert Flat(lines) + (blank + s) == blank + s;
      ReadsBlank(blank, s, headers);
    } else {
      assert Flat(lines) + (blank + s) == lines[0] + (Flat(lines[1..]) + (blank + s));
      assert lines[0] in lines && forall line :: line in lines[1..] ==> line in lines;
      ReadsOneLine(lines[0], Flat(lines[1..]) + (blank + s), headers);
      ReadsLines(lines[1..], blank, s, WithLine(headers, lines[0]));
    }
  }

  lemma {:induction false} GapIsBlank(s: Bytes)
    requires IsGap(s)
    ensures Blank(s)
  {
  }

  lemma {:induction false} FieldSplits(name: Bytes, value: Bytes)
    requires IsLengthName(name)
    ensures var text := name + ":" + value;
      Colon(text) == 14 && text[..14] == name && text[15..] == value
    ensures Lower(name) == "content-length"
  {
    var text := name + ":" + value;
    assert text[14] == ':' && forall i :: 0 <= i < 14 ==> text[i] == name[i];
    assert forall i :: 0 <= i < 14 ==> "content-length"[i] != ':';
  }

  lemma {:induction false} FieldDecodes(lead: Bytes, name: Bytes, gap: Bytes, value: Bytes, trail: Bytes)
    requires IsGap(lead) && IsLengthName(name) && IsGap(gap) && IsGap(trail) && IsTight(value)
    ensures var line := FieldLine(lead, name, gap, value, trail); Decoded(line) == line
  {
  }

  lemma {:induction false} FieldSets(headers: map<string, string>, line: Bytes, value: Bytes)
    requires Gives(line, value)
    ensures WithLine(headers, line) == headers["content-length" := value]
  {
    var lead, name, gap, trail :|
      && line == FieldLine(lead, name, gap, value, trail)
      && IsGap(lead) && IsLengthName(name) && IsGap(gap) && IsGap(trail) && IsTight(value);
    var text := name + ":" + (gap + value);
    FieldDecodes(lead, name, gap, value, trail);
    GapIsBlank(lead);
    GapIsBlank(gap);
    GapIsBlank(trail);
    assert text[0] == name[0] && text[|text| - 1] == value[|value| - 1];
    StripOf(lead, text, trail);
    FieldSplits(name, gap + value);
    assert (gap + value) + "" == gap + value;
    StripOf(gap, value, "");
  }

  lemma {:induction false} DigitsOfMore(s: string, group: string)
    requires Digits(s).Some? && group != "" && Decimal.AllDigits(group)
    ensures Digits(s + "_" + group) == Some(Digits(s).value + group)
    decreases |group|
  {
    var n := |group| - 1;
    var all := s + "_" + group;
    assert all[|all| - 1] == group[n];
    if n == 0 {
      assert all[|all| - 2] == '_' && all[..|all| - 2] == s;
      assert Digits(s).value + [group[0]] == Digits(s).value + group;
    } else {
      DigitsOfMore(s, group[..n]);
      assert all[|all| - 2] == group[n - 1] && Decimal.IsDigit(group[n - 1]);
      assert all[..|all| - 1] == s + "_" + group[..n];
      assert Digits(s).value + group[..n] + [group[n]] == Digits(s).value + group;
    }
  }

  lemma {:induction false} DigitsOfGroups(groups: seq<string>)
    requires AreGroups(groups)
    ensures Digits(Underscored(groups)) == Some(AllOf(groups))
    decreases |groups|
  {
    var n := |groups| - 1;
    if n == 0 {
      assert AllOf(groups[..0]) == "" && AllOf(groups) == groups[0];
      DigitsAreDigits(groups[0]);
    } else {
      DigitsOfGroups(groups[..n]);
      DigitsOfMore(Underscored(groups[..n]), groups[n]);
    }
  }

  lemma {:induction false} ParsesSigned(sign: string, text: string)
    requires sign in {"", "+", "-"} && text != "" && Decimal.IsDigit(text[0]) && Digits(text).Some?
    ensures Decimal.AllDigits(Digits(text).value)
    ensures var n := Decimal.Value(Digits(text).value);
      ParseInt(sign + text) == Some(if sign == "-" then -(n as int) else n)
  {
    DigitsAreDigits(text);
    var value := sign + text;
    if sign == "" {
      assert value == text;
    } else {
      assert value[0] == sign[0] && value[1..] == text;
    }
  }

  lemma {:induction false} GroupsAreDigits(groups: seq<string>)
    requires AreGroups(groups)
    ensures Decimal.AllDigits(AllOf(groups))
    ensures Underscored(groups) != "" && Decimal.IsDigit(Underscored(groups)[0])
    decreases |groups|
  {
    if |groups| > 1 {
      GroupsAreDigits(groups[..|groups| - 1]);
    } else {
      assert AllOf(groups[..0]) == "" && AllOf(groups) == groups[0];
    }
  }

  /** `int()` reads a numeral as what it denotes. */
  lemma {:induction false} ParsesNumeral(value: Bytes, n: int)
    requires Denotes(value, n)
    ensures ParseInt(value) == Some(n)
  {
    var groups, sign :|
      && AreGroups(groups) && sign in {"", "+", "-"} && value == sign + Underscored(groups)
      && Decimal.AllDigits(AllOf(groups))
      && n == if sign == "-" then -(Decimal.Value(AllOf(groups)) as int) else Decimal.Value(AllOf(groups));
    DigitsOfGroups(groups);
    GroupsAreDigits(groups);
    ParsesSigned(sign, Underscored(groups));
  }

  lemma {:induction false} DigitsHoldNothingElse(s: string)
    requires Digits(s).Some?
    ensures forall c :: c in s ==> Decimal.IsDigit(c) || c == '_'
    decreases |s|
  {
    if |s| > 1 {
      var rest := if s[|s| - 2] == '_' then s[..|s| - 2] else s[..|s| - 1];
      DigitsHoldNothingElse(rest);
      assert s == rest + s[|rest|..];
    }
  }

  /** A text with any other character in it is no number. */
  lemma {:induction false} OtherTextIsNoNumber(value: Bytes, c: char)
    requires c in value && !Decimal.IsDigit(c) && c !in {'_', '+', '-'}
    ensures ParseInt(value) == None
  {
    var unsigned := if value != "" && (value[0] == '-' || value[0] == '+') then value[1..] else value;
    assert c in unsigned;
    if Digits(unsigned).Some? {
      DigitsHoldNothingElse(unsigned);
    }
  }

  lemma {:induction false} OtherLineKeeps(headers: map<string, string>, line: Bytes)
    requires !NamesLength(line)
    ensures ContentLength(WithLine(headers, line)) == ContentLength(headers)
  {
    var decoded := Decoded(line);
    var a, b := StripCuts(decoded);
    var text := decoded[a..b];
    var n := Colon(text);
    if n < |text| && Lower(text[..n]) == "content-length" {
      assert n == 14;
      NameStandsInLine(line, a, b);
      assert NamesLength(line);
    }
  }

  lemma {:induction false} NameStandsInLine(line: Bytes, a: nat, b: nat)
    requires a <= b <= |line| && a + 14 < b && Blank(Decoded(line)[..a])
    requires Lower(Decoded(line)[a..b][..14]) == "content-length" && Decoded(line)[a..b][14] == ':'
    ensures IsGap(line[..a]) && IsLengthName(line[a..a + 14]) && line[a + 14] == ':'
  {
    var decoded := Decoded(line);
    forall i | 0 <= i < a
      ensures IsSpace(line[i]) && (line[i] as int) < 128
    {
      assert decoded[..a][i] in decoded[..a];
    }
    forall i | 0 <= i < 14
      ensures var c := "content-length"[i];
              line[a..a + 14][i] == c || ('a' <= c <= 'z' && line[a..a + 14][i] as int + 32 == c as int)
    {
      assert Lower(decoded[a..b][..14])[i] == "content-length"[i];
      assert decoded[a..b][..14][i] == decoded[a + i];
    }
  }

  lemma {:induction false} OtherLinesKeep(headers: map<string, string>, lines: seq<Bytes>)
    requires forall line :: line in lines ==> !NamesLength(line)
    ensures ContentLength(WithLines(headers, lines)) == ContentLength(headers)
    decreases |lines|
  {
    if lines != [] {
      assert lines[0] in lines && forall line :: line in lines[1..] ==> line in lines;
      OtherLineKeeps(headers, lines[0]);
      OtherLinesKeep(WithLine(headers, lines[0]), lines[1..]);
    }
  }

  lemma {:induction false} WithMoreLines(headers: map<string, string>, a: seq<Bytes>, b: seq<Bytes>)
    ensures WithLines(headers, a + b) == WithLines(WithLines(headers, a), b)
    decreases |a|
  {
    if a == [] {
      assert a + b == b;
    } else {
      assert (a + b)[1..] == a[1..] + b;
      WithMoreLines(WithLine(headers, a[0]), a[1..], b);
    }
  }

  /** Of a header of any lines the last Content-Length field decides, in whatever letters it is written, wherever it
      stands and whatever other fields there are. */
  lemma {:induction false} LastFieldDecides(
      before: seq<Bytes>, line: Bytes, after: seq<Bytes>, blank: Bytes, value: Bytes, s: Bytes)
    requires (forall l :: l in before + [line] + after ==> IsHeaderLine(l)) && IsBlank(blank)
    requires Gives(line, value) && (forall l :: l in after ==> !NamesLength(l))
    ensures var header := ReadHeader(Flat(before + [line] + after) + (blank + s), map[]);
      header.Some? && ContentLength(header.value.0) == ParseInt(value) && header.value.1 == s
  {
    var lines := before + [line] + after;
    ReadsLines(lines, blank, s, map[]);
    WithMoreLines(map[], before + [line], after);
    WithMoreLines(map[], before, [line]);
    var found := WithLines(map[], before);
    assert WithLines(found, [line]) == WithLine(found, line);
    FieldSets(found, line, value);
    OtherLinesKeep(WithLine(found, line), after);
  }

  /** If it denotes a positive number, the payload is exactly as many bytes after the blank line, or as many of them as
      there are, and what follows is read as if it stood alone. If it denotes any other number, only the header is
      skipped. */
  lemma {:induction false} AnnouncedBytesAreRead(
      before: seq<Bytes>, line: Bytes, after: seq<Bytes>, blank: Bytes, value: Bytes, n: int, s: Bytes)
    requires (forall l :: l in before + [line] + after ==> IsHeaderLine(l)) && IsBlank(blank)
    requires Gives(line, value) && Denotes(value, n) && (forall l :: l in after ==> !NamesLength(l))
    ensures var stream := Flat(before + [line] + after) + (blank + s);
      Payloads(stream) == if n <= 0 then Payloads(s) else if n <= |s| then [s[..n]] + Payloads(s[n..]) else [s]
  {
    LastFieldDecides(before, line, after, blank, value, s);
    ParsesNumeral(value, n);
    assert Payloads("") == [];
  }

  /** So it is if the value cannot be a number for a character in it. */
  lemma {:induction false} UnreadableIsSkipped(
      before: seq<Bytes>, line: Bytes, after: seq<Bytes>, blank: Bytes, value: Bytes, c: char, s: Bytes)
    requires (forall l :: l in before + [line] + after ==> IsHeaderLine(l)) && IsBlank(blank)
    requires Gives(line, value) && (forall l :: l in after ==> !NamesLength(l))
    requires c in value && !Decimal.IsDigit(c) && c !in {'_', '+', '-'}
    ensures Payloads(Flat(before + [line] + after) + (blank + s)) == Payloads(s)
  {
    LastFieldDecides(before, line, after, blank, value, s);
    OtherTextIsNoNumber(value, c);
  }

  /** A header without any Content-Length field is skipped with its blank line, and nothing else is. */
  lemma {:induction false} UnannouncedIsSkipped(lines: seq<Bytes>, blank: Bytes, s: Bytes)
    requires (forall l :: l in lines ==> IsHeaderLine(l) && !NamesLength(l)) && IsBlank(blank)
    ensures Payloads(Flat(lines) + (blank + s)) == Payloads(s)
  {
    ReadsLines(lines, blank, s, map[]);
    OtherLinesKeep(map[], lines);
    DigitsAreDigits("0");
  }

  // ----- Round trip -----

  lemma {:induction false} OwnLineGives(digits: string)
    requires digits != "" && Decimal.AllDigits(digits)
    ensures Gives(HEADER + digits + "\r\n", digits)
  {
    assert HEADER == "Content-Length" + ":" + " ";
    assert HEADER + digits + "\r\n" == FieldLine("", "Content-Length", " ", digits, "\r\n");
    assert forall k :: 0 <= k < |digits| ==> Decimal.IsDigit(digits[k]);
    assert IsTight(digits) && IsGap("") && IsGap(" ") && IsGap("\r\n") && IsLengthName("Content-Length");
  }

  lemma {:induction false} OwnLineIsLine(digits: string)
    requires Decimal.AllDigits(digits)
    ensures IsHeaderLine(HEADER + digits + "\r\n")
  {
    var line := HEADER + digits + "\r\n";
    forall i | 0 <= i < |line| - 1
      ensures line[i] != LF
    {
      if |HEADER| <= i < |HEADER| + |digits| {
        assert Decimal.IsDigit(digits[i - |HEADER|]);
      }
    }
    assert line[0] == 'C';
  }

  lemma {:induction false} ParsesPrinted(n: nat)
    ensures ParseInt(Decimal.Print(n)) == Some(n)
  {
    var digits := Decimal.Print(n);
    DigitsAreDigits(digits);
    Decimal.ValueOfPrint(n);
    assert Decimal.IsDigit(digits[0]);
  }

  lemma {:induction false} OneFieldHeader(line: Bytes, value: Bytes, s: Bytes)
    requires IsHeaderLine(line) && Gives(line, value)
    ensures ReadHeader(line + ("\r\n" + s), map[]) == Some((map["content-length" := value], s))
  {
    FieldSets(map[], line, value);
    ReadsOneLine(line, "\r\n" + s, map[]);
    ReadsBlank("\r\n", s, WithLine(map[], line));
  }

  lemma {:induction false} FrameSplits(body: Bytes, rest: Bytes, line: Bytes)
    requires line == HEADER + Decimal.Print(|body|) + "\r\n"
    ensures Frame(body) + rest == line + ("\r\n" + (body + rest))
  {
  }

  /** The header of a frame is read back as its body's length, whatever follows. */
  lemma {:induction false} HeaderRoundTrip(body: Bytes, rest: Bytes)
    ensures ReadHeader(Frame(body) + rest, map[])
      == Some((map["content-length" := Decimal.Print(|body|)], body + rest))
  {
    var digits := Decimal.Print(|body|);
    var line := HEADER + digits + "\r\n";
    FrameSplits(body, rest, line);
    OwnLineIsLine(digits);
    OwnLineGives(digits);
    OneFieldHeader(line, digits, body + rest);
  }

  lemma {:induction false} FrameRoundTrip(body: Bytes, more: Bytes)
    requires body != ""
    ensures Payloads(Frame(body) + more) == [body] + Payloads(more)
  {
    HeaderRoundTrip(body, more);
    ParsesPrinted(|body|);
    assert Take(body + more, |body|) == body;
    assert Drop(body + more, |body|) == more;
  }

  /** Whatever the bodies contain, reading the concatenation of their frames yields exactly the bodies, in
      order; anything that follows is read as if it stood alone. */
  lemma {:induction false} FramesRoundTrip(bodies: seq<Bytes>, rest: Bytes)
    requires forall b :: b in bodies ==> b != ""
    ensures Payloads(Frames(bodies) + rest) == bodies + Payloads(rest)
    decreases |bodies|
  {
    if bodies == [] {
      assert Frames(bodies) + rest == rest;
    } else {
      var body, later := bodies[0], bodies[1..];
      var more := Frames(later) + rest;
      assert Frames(bodies) + rest == Frame(body) + more;
      assert body in bodies && forall b :: b in later ==> b in bodies;
      FrameRoundTrip(body, more);
      FramesRoundTrip(later, rest);
      Regroup(bodies, Payloads(rest));
    }
  }

  lemma {:induction false} Regroup(bodies: seq<Bytes>, more: seq<Bytes>)
    requires bodies != []
    ensures [bodies[0]] + (bodies[1..] + more) == bodies + more
  {
  }

  lemma {:induction false} FramesAlone(bodies: seq<Bytes>)
    requires forall b :: b in bodies ==> b != ""
    ensures Payloads(Frames(bodies)) == bodies
  {
    FramesRoundTrip(bodies, "");
    assert Frames(bodies) + "" == Frames(bodies);
    assert bodies + [] == bodies;
  }
}
