/** HTTP/1.1 responses as text: what src/response.c writes, and how a recipient takes it apart by
    sections 2.1, 4 and 5 of RFC 9112. */
module Message {
  import opened Wrappers
  import opened CStrings

  datatype Header = Header(key: Text, value: Text)

  datatype Message = Message(code: int, reason: Text, headers: seq<Header>, body: Text)

  const CRLF: Text := "\r\n"

  // ----- Numbers

  function Digit(d: nat): char
    requires d < 10
  {
    '0' + d as char
  }

  function Digits(n: nat): (s: Text)
    ensures s != []
    ensures forall i :: 0 <= i < |s| ==> '0' <= s[i] <= '9'
  {
    if n < 10 then [Digit(n)] else Digits(n / 10) + [Digit(n % 10)]
  }

  /** `%d`. */
  function Decimal(n: int): Text {
    if n < 0 then "-" + Digits(-n) else Digits(n)
  }

  function ReadDigits(s: Text): Option<nat> {
    if s == [] then None
    else if !('0' <= s[|s| - 1] <= '9') then None
    else
      var d := (s[|s| - 1] - '0') as nat;
      if |s| == 1 then Some(d)
      else
        var high := ReadDigits(s[..|s| - 1]);
        if high.None? then None else Some(10 * high.value + d)
  }

  function ReadDecimal(s: Text): Option<int> {
    if s != [] && s[0] == '-' then
      var n := ReadDigits(s[1..]);
      if n.None? then None else Some(0 - n.value)
    else
      var n := ReadDigits(s);
      if n.None? then None else Some(n.value)
  }

  lemma {:induction false} ReadsDigits(n: nat)
    ensures ReadDigits(Digits(n)) == Some(n)
  {
    if n >= 10 {
      ReadsDigits(n / 10);
      assert Digits(n)[..|Digits(n)| - 1] == Digits(n / 10);
    }
  }

  /** A number comes back from its decimal. */
  lemma ReadsDecimal(n: int)
    ensures ReadDecimal(Decimal(n)) == Some(n)
    ensures ' ' !in Decimal(n) && '\t' !in Decimal(n) && '\r' !in Decimal(n) && NUL !in Decimal(n)
  {
    ReadsDigits(if n < 0 then -n else n);
    if n < 0 {
      assert Decimal(n)[1..] == Digits(-n);
    }
  }

  /** No sign but a minus, and no zero in front but the number zero itself. */
  predicate Canonical(s: Text) {
    if s != [] && s[0] == '-' then |s| > 1 && s[1] != '0' && s[1] != '-'
    else s != [] && (s[0] == '0' ==> |s| == 1)
  }

  lemma {:induction false} DigitsAreCanonical(n: nat)
    ensures Digits(n)[0] == '0' <==> n == 0
    ensures |Digits(n)| == 1 <==> n < 10
  {
    if n >= 10 {
      DigitsAreCanonical(n / 10);
      assert Digits(n)[0] == Digits(n / 10)[0];
    }
  }

  lemma {:induction false} DigitsAreUnique(s: Text, n: nat)
    requires ReadDigits(s) == Some(n) && (s[0] == '0' ==> |s| == 1)
    ensures s == Digits(n)
  {
    var high := s[..|s| - 1];
    assert s == high + [s[|s| - 1]];
    if |s| > 1 {
      DigitsAreUnique(high, ReadDigits(high).value);
      PositiveDigits(high);
      assert n / 10 == ReadDigits(high).value && Digit(n % 10) == s[|s| - 1];
    }
  }

  lemma {:induction false} PositiveDigits(s: Text)
    requires ReadDigits(s).Some? && s[0] != '0'
    ensures ReadDigits(s).value > 0
  {
    if |s| > 1 {
      PositiveDigits(s[..|s| - 1]);
    }
  }

  lemma DecimalIsCanonical(n: int)
    ensures Canonical(Decimal(n))
  {
    DigitsAreCanonical(if n < 0 then -n else n);
    if n < 0 {
      assert Decimal(n)[1] == Digits(-n)[0];
    }
  }

  lemma CanonicalIsDecimal(n: int, s: Text)
    requires Canonical(s) && ReadDecimal(s) == Some(n)
    ensures s == Decimal(n)
  {
    if s[0] == '-' {
      DigitsAreUnique(s[1..], 0 - n);
      PositiveDigits(s[1..]);
      assert s == "-" + s[1..];
    } else {
      DigitsAreUnique(s, n);
    }
  }

  /** The decimal of n is the one canonical text that reads as n. */
  lemma OnlyDecimal(n: int, s: Text)
    ensures Canonical(s) && ReadDecimal(s) == Some(n) <==> s == Decimal(n)
  {
    ReadsDecimal(n);
    DecimalIsCanonical(n);
    if Canonical(s) && ReadDecimal(s) == Some(n) {
      CanonicalIsDecimal(n, s);
    }
  }

  // ----- Writing

  function HeaderLine(h: Header): Text {
    h.key + ": " + h.value + CRLF
  }

  /** The lines of the first n headers. */
  function HeaderLines(headers: seq<Header>, n: nat): Text
    requires n <= |headers|
  {
    if n == 0 then [] else HeaderLines(headers, n - 1) + HeaderLine(headers[n - 1])
  }

  function StatusLine(code: int, reason: Text): Text {
    "HTTP/1.1 " + Decimal(code) + " " + reason + CRLF
  }

  function Written(m: Message): Text {
    StatusLine(m.code, m.reason) + HeaderLines(m.headers, |m.headers|) + CRLF + m.body
  }

  // ----- Reading

  function FindCrlf(s: Text): (k: nat)
    ensures k <= |s|
    ensures k < |s| ==> k + 1 < |s| && s[k] == '\r' && s[k + 1] == '\n'
  {
    if |s| < 2 then |s|
    else if s[0] == '\r' && s[1] == '\n' then 0
    else 1 + FindCrlf(s[1..])
  }

  /** The first line of s and what follows its CRLF. */
  function NextLine(s: Text): (r: Option<(Text, Text)>)
    ensures r.Some? ==> |r.value.1| < |s|
  {
    var k := FindCrlf(s);
    if k == |s| then None else Some((s[..k], s[k + 2..]))
  }

  function Find(s: Text, c: char): (k: nat)
    ensures k <= |s|
    ensures k < |s| ==> s[k] == c
  {
    if s == [] || s[0] == c then 0 else 1 + Find(s[1..], c)
  }

  predicate IsSpace(c: char) {
    c == ' ' || c == '\t'
  }

  function TrimLeft(s: Text): Text {
    if s != [] && IsSpace(s[0]) then TrimLeft(s[1..]) else s
  }

  function TrimRight(s: Text): Text {
    if s != [] && IsSpace(s[|s| - 1]) then TrimRight(s[..|s| - 1]) else s
  }

  /** The optional whitespace around a field value is not part of it (section 5 of RFC 9112). */
  function Trim(s: Text): Text {
    TrimRight(TrimLeft(s))
  }

  function ReadHeader(line: Text): Option<Header> {
    var k := Find(line, ':');
    if k == |line| then None else Some(Header(line[..k], Trim(line[k + 1..])))
  }

  /** Header lines up to the empty line, and what follows it. */
  function ReadHeaders(s: Text): Option<(seq<Header>, Text)>
    decreases |s|
  {
    var next := NextLine(s);
    if next.None? then None
    else if next.value.0 == [] then Some(([], next.value.1))
    else
      var header := ReadHeader(next.value.0);
      var others := ReadHeaders(next.value.1);
      if header.None? || others.None? then None
      else Some(([header.value] + others.value.0, others.value.1))
  }

  predicate IsDigit(c: char) {
    '0' <= c <= '9'
  }

  function DigitValue(c: char): nat
    requires IsDigit(c)
  {
    (c - '0') as nat
  }

  /** The version, a space, a status code of exactly three digits, a space and the reason (section 4
      of RFC 9112). */
  function ReadStatus(line: Text): Option<(int, Text)> {
    if |line| < 13 || line[..9] != "HTTP/1.1 " || line[12] != ' ' then None
    else if !IsDigit(line[9]) || !IsDigit(line[10]) || !IsDigit(line[11]) then None
    else Some((100 * DigitValue(line[9]) + 10 * DigitValue(line[10]) + DigitValue(line[11]), line[13..]))
  }

  function Read(s: Text): Option<Message> {
    var first := NextLine(s);
    if first.None? then None
    else
      var status, headers := ReadStatus(first.value.0), ReadHeaders(first.value.1);
      if status.None? || headers.None? then None
      else Some(Message(status.value.0, status.value.1, headers.value.0, headers.value.1))
  }

  // ----- Reading what was written

  lemma {:induction false} FindsCrlf(line: Text, rest: Text)
    requires '\r' !in line
    ensures FindCrlf(line + CRLF + rest) == |line|
  {
    var s := line + CRLF + rest;
    if line != [] {
      FindsCrlf(line[1..], rest);
      assert s[1..] == line[1..] + CRLF + rest;
      assert s[0] == line[0];
    }
  }

  lemma ReadsLine(line: Text, rest: Text)
    requires '\r' !in line
    ensures NextLine(line + CRLF + rest) == Some((line, rest))
  {
    var s := line + CRLF + rest;
    FindsCrlf(line, rest);
    assert s[..|line|] == line && s[|line| + 2..] == rest;
  }

  lemma {:induction false} Finds(head: Text, c: char, rest: Text)
    requires c !in head
    ensures Find(head + [c] + rest, c) == |head|
  {
    var s := head + [c] + rest;
    if head != [] {
      Finds(head[1..], c, rest);
      assert s[1..] == head[1..] + [c] + rest;
      assert s[0] == head[0];
    }
  }

  predicate Clean(h: Header) {
    ':' !in h.key && '\r' !in h.key && '\r' !in h.value
  }

  predicate AllClean(headers: seq<Header>) {
    forall i :: 0 <= i < |headers| ==> Clean(headers[i])
  }

  lemma ReadsHeader(h: Header)
    requires Clean(h)
    ensures ReadHeader(h.key + ": " + h.value) == Some(Header(h.key, Trim(h.value)))
  {
    var line := h.key + ": " + h.value;
    assert line == h.key + [':'] + ([' '] + h.value);
    Finds(h.key, ':', [' '] + h.value);
    assert line[..|h.key|] == h.key && line[|h.key| + 1..] == [' '] + h.value;
    assert ([' '] + h.value)[1..] == h.value;
  }

  /** The header lines written one after the other, seen from the front. */
  function LinesFrom(headers: seq<Header>): Text {
    if headers == [] then [] else HeaderLine(headers[0]) + LinesFrom(headers[1..])
  }

  lemma {:induction false} LinesFromAppend(headers: seq<Header>, h: Header)
    ensures LinesFrom(headers + [h]) == LinesFrom(headers) + HeaderLine(h)
  {
    if headers != [] {
      LinesFromAppend(headers[1..], h);
      assert (headers + [h])[1..] == headers[1..] + [h];
    } else {
      assert (headers + [h])[1..] == [];
    }
  }

  lemma {:induction false} LinesBothWays(headers: seq<Header>, n: nat)
    requires n <= |headers|
    ensures HeaderLines(headers, n) == LinesFrom(headers[..n])
  {
    if n > 0 {
      LinesBothWays(headers, n - 1);
      LinesFromAppend(headers[..n - 1], headers[n - 1]);
      assert headers[..n] == headers[..n - 1] + [headers[n - 1]];
    }
  }

  function Trimmed(headers: seq<Header>): (trimmed: seq<Header>)
    ensures |trimmed| == |headers|
    ensures forall i :: 0 <= i < |headers| ==> trimmed[i] == Header(headers[i].key, Trim(headers[i].value))
  {
    seq(|headers|, i requires 0 <= i < |headers| => Header(headers[i].key, Trim(headers[i].value)))
  }

  lemma {:induction false} ReadsHeaders(headers: seq<Header>, body: Text)
    requires AllClean(headers)
    ensures ReadHeaders(LinesFrom(headers) + CRLF + body) == Some((Trimmed(headers), body))
  {
    if headers == [] {
      assert LinesFrom(headers) + CRLF + body == [] + CRLF + body;
      ReadsLine([], body);
    } else {
      var h, rest := headers[0], LinesFrom(headers[1..]) + CRLF + body;
      FirstLine(headers, body);
      ReadsLine(h.key + ": " + h.value, rest);
      ReadsHeader(h);
      ReadsHeaders(headers[1..], body);
      FirstTrimmed(headers);
    }
  }

  lemma FirstLine(headers: seq<Header>, body: Text)
    requires headers != []
    ensures LinesFrom(headers) + CRLF + body
         == headers[0].key + ": " + headers[0].value + CRLF + (LinesFrom(headers[1..]) + CRLF + body)
  {
    var line, rest := headers[0].key + ": " + headers[0].value + CRLF, LinesFrom(headers[1..]);
    assert LinesFrom(headers) == line + rest;
    assert line + rest + CRLF + body == line + (rest + CRLF + body);
  }

  lemma FirstTrimmed(headers: seq<Header>)
    requires headers != []
    ensures Trimmed(headers) == [Header(headers[0].key, Trim(headers[0].value))] + Trimmed(headers[1..])
  {
  }

  predicate ThreeDigits(code: int) {
    100 <= code <= 999
  }

  lemma ShortDigits(n: nat)
    ensures (|Digits(n)| == 1 <==> n < 10) && (|Digits(n)| == 2 <==> 10 <= n < 100)
    ensures 100 <= n < 1000 ==> Digits(n) == [Digit(n / 100), Digit(n / 10 % 10), Digit(n % 10)]
    ensures n >= 1000 ==> |Digits(n)| > 3
  {
    DigitsAreCanonical(n);
    if n >= 10 {
      DigitsAreCanonical(n / 10);
      if n >= 100 {
        DigitsAreCanonical(n / 100);
        assert n / 10 / 10 == n / 100;
        assert Digits(n) == Digits(n / 100) + [Digit(n / 10 % 10)] + [Digit(n % 10)];
      }
    }
  }

  /** A code is written in three digits, and those its own, exactly when it is from 100 to 999. */
  lemma CodeIsThreeDigits(code: int)
    ensures ThreeDigits(code) ==> Decimal(code) == [Digit(code / 100), Digit(code / 10 % 10), Digit(code % 10)]
    ensures !ThreeDigits(code) ==> |Decimal(code)| != 3 || Decimal(code)[0] == '-'
  {
    if code >= 0 {
      ShortDigits(code);
    }
  }

  lemma StatusChars(digits: Text, reason: Text)
    ensures var line := "HTTP/1.1 " + digits + " " + reason;
            && |line| == 10 + |digits| + |reason| && line[..9] == "HTTP/1.1 "
            && (forall i :: 0 <= i < |digits| ==> line[9 + i] == digits[i])
            && line[9 + |digits|] == ' ' && line[10 + |digits|..] == reason
  {
    assert "HTTP/1.1 " + digits + " " + reason == "HTTP/1.1 " + (digits + " " + reason);
  }

  lemma NoThreeDigits(line: Text, n: nat)
    requires 10 + n <= |line| && n != 3 && line[9 + n] == ' '
    requires n > 3 ==> IsDigit(line[12]) || line[12] == '-'
    ensures ReadStatus(line) == None
  {
  }

  /** So the status line is read back exactly then. */
  lemma ReadsStatus(code: int, reason: Text)
    ensures ReadStatus("HTTP/1.1 " + Decimal(code) + " " + reason)
         == if ThreeDigits(code) then Some((code, reason)) else None
  {
    var line, digits := "HTTP/1.1 " + Decimal(code) + " " + reason, Decimal(code);
    CodeIsThreeDigits(code);
    StatusChars(digits, reason);
    if ThreeDigits(code) {
      assert line[9] == digits[0] && line[10] == digits[1] && line[11] == digits[2];
      assert code == 100 * (code / 100) + 10 * (code / 10 % 10) + code % 10;
    } else if |digits| == 3 {
      assert line[9] == digits[0];
    } else {
      assert |digits| > 3 ==> line[12] == digits[3];
      NoThreeDigits(line, |digits|);
    }
  }

  /** A written response decodes uniquely: the recipient finds the status, the headers in order
      with the whitespace around their values dropped, and the body, exactly when the status code
      has three digits. */
  lemma ReadsWritten(m: Message)
    requires '\r' !in m.reason && AllClean(m.headers)
    ensures Read(Written(m)) == if ThreeDigits(m.code) then Some(m.(headers := Trimmed(m.headers))) else None
  {
    var line := "HTTP/1.1 " + Decimal(m.code) + " " + m.reason;
    var rest := LinesFrom(m.headers) + CRLF + m.body;
    LinesBothWays(m.headers, |m.headers|);
    assert m.headers[..|m.headers|] == m.headers;
    assert Written(m) == line + CRLF + rest;
    ReadsDecimal(m.code);
    ReadsLine(line, rest);
    ReadsStatus(m.code, m.reason);
    ReadsHeaders(m.headers, m.body);
  }

  /** Text without whitespace at either end is not trimmed. */
  lemma TrimKeeps(s: Text)
    requires s != [] && !IsSpace(s[0]) && !IsSpace(s[|s| - 1])
    ensures Trim(s) == s
  {
  }
}
