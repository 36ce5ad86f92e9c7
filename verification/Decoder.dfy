/** Percent-decoding as src/url/decoder.c does it. Text is a C string: characters up to, and not
    including, the terminating NUL. */
module Decoder {
  import opened CStrings
  import opened Wrappers

  // ----- The tables

  function Get2Char(x: char): char {
    match x
    case '0' => ' '
    case '2' => '\"'
    case '3' => '#'
    case '5' => '%'
    case '7' => '\''
    case 'B' => '+'
    case 'F' => '/'
    case _ => NUL
  }

  function Get3Char(x: char): char {
    match x
    case 'A' => ':'
    case 'B' => ';'
    case 'C' => '<'
    case 'D' => '='
    case 'E' => '>'
    case 'F' => '?'
    case _ => NUL
  }

  /** The character that the escape %ab stands for, NUL when the tables have none. */
  function Unescape(a: char, b: char): char {
    if a == '2' then Get2Char(b) else if a == '3' then Get3Char(b) else NUL
  }

  // ----- Decoding

  function Prepend(head: Text, tail: Option<Text>): Option<Text> {
    if tail.None? then None else Some(head + tail.value)
  }

  /** A percent sign starts an escape only when more than three characters remain, itself
      included: an escape at the very end is copied as it stands. */
  function Decode(url: Text): Option<Text> {
    if url == [] then Some([])
    else if url[0] == '%' && |url| > 3 then
      if Unescape(url[1], url[2]) == NUL then None
      else Prepend([Unescape(url[1], url[2])], Decode(url[3..]))
    else Prepend([url[0]], Decode(url[1..]))
  }

  /** `decode_url`: 0 and the decoded text with its NUL in decUrl, or -1. */
  method DecodeUrl(url: Text, decUrl: array<char>) returns (code: int)
    requires decUrl.Length > |url|
    modifies decUrl
    ensures code == if Decode(url).Some? then 0 else -1
    ensures code == 0 ==>
              var text := Decode(url).value;
              |text| <= |url| && decUrl[..|text|] == text && decUrl[|text|] == NUL
  {
    var n := |url|;
    var len, i := 0, 0;
    PrependTwice([], [], Decode(url));
    assert url[0..] == url && decUrl[..0] == [];
    while i < n
      invariant 0 <= len <= i <= n
      invariant Decode(url) == Prepend(decUrl[..len], Decode(url[i..]))
    {
      ghost var done, rest := decUrl[..len], url[i..];
      if url[i] == '%' && i < n - 3 {
        var x: char;
        if url[i + 1] == '2' {
          x := Get2Char(url[i + 2]);
          if x == NUL {
            return -1;
          }
        } else if url[i + 1] == '3' {
          x := Get3Char(url[i + 2]);
          if x == NUL {
            return -1;
          }
        } else {
          return -1;
        }
        assert rest[1] == url[i + 1] && rest[2] == url[i + 2] && rest[3..] == url[i + 3..];
        PrependTwice(done, [x], Decode(rest[3..]));
        decUrl[len] := x;
        len, i := len + 1, i + 3;
      } else {
        assert rest[1..] == url[i + 1..];
        PrependTwice(done, [url[i]], Decode(rest[1..]));
        decUrl[len] := url[i];
        len, i := len + 1, i + 1;
      }
      assert decUrl[..len] == done + [decUrl[len - 1]];
    }
    assert url[n..] == [];
    decUrl[len] := NUL;
    return 0;
  }

  lemma PrependTwice(a: Text, b: Text, tail: Option<Text>)
    ensures Prepend(a, Prepend(b, tail)) == Prepend(a + b, tail)
    ensures Prepend([], tail) == tail
  {
    if tail.Some? {
      assert a + (b + tail.value) == a + b + tail.value;
      assert [] + tail.value == tail.value;
    }
  }

  /** Decoding never yields a NUL from a C string and never lengthens it. */
  lemma {:induction false} DecodedIsText(url: Text)
    requires NUL !in url && Decode(url).Some?
    ensures NUL !in Decode(url).value && |Decode(url).value| <= |url|
  {
    if url != [] {
      DecodedIsText(if url[0] == '%' && |url| > 3 then url[3..] else url[1..]);
    }
  }

  // ----- Encodings and their decoding

  predicate IsHexDigit(c: char) {
    '0' <= c <= '9' || 'A' <= c <= 'F' || 'a' <= c <= 'f'
  }

  function HexValue(c: char): (v: nat)
    requires IsHexDigit(c)
    ensures v < 16
  {
    if c <= '9' then (c - '0') as nat
    else if c <= 'F' then (c - 'A') as nat + 10
    else (c - 'a') as nat + 10
  }

  /** The character of the octet that two hexadecimal digits write, in either case of letters, as
      section 2.1 of RFC 3986 defines percent-encoding. */
  function Octet(hi: char, lo: char): char
    requires IsHexDigit(hi) && IsHexDigit(lo)
  {
    (16 * HexValue(hi) + HexValue(lo)) as char
  }

  /** The tables know thirteen escapes, and give each the octet it writes. */
  lemma TablesAreOctets(hi: char, lo: char)
    ensures Unescape(hi, lo) != NUL
       <==> [hi, lo] in ["20", "22", "23", "25", "27", "2B", "2F", "3A", "3B", "3C", "3D", "3E", "3F"]
    ensures Unescape(hi, lo) != NUL ==>
              IsHexDigit(hi) && IsHexDigit(lo) && Unescape(hi, lo) == Octet(hi, lo)
  {
  }

  /** A text in some percent-encoded form: each character stands for itself or is written as the
      two digits of its octet. */
  datatype Chunk = Plain(c: char) | Escaped(hi: char, lo: char)

  predicate Proper(chunk: Chunk) {
    match chunk
    case Plain(c) => c != '%' && c != NUL
    case Escaped(hi, lo) => IsHexDigit(hi) && IsHexDigit(lo)
  }

  predicate AllProper(chunks: seq<Chunk>) {
    forall i :: 0 <= i < |chunks| ==> Proper(chunks[i])
  }

  function Shown(chunk: Chunk): Text {
    match chunk
    case Plain(c) => [c]
    case Escaped(hi, lo) => ['%', hi, lo]
  }

  function Meant(chunk: Chunk): char
    requires Proper(chunk)
  {
    match chunk
    case Plain(c) => c
    case Escaped(hi, lo) => Octet(hi, lo)
  }

  /** The encoded text. */
  function Encoded(chunks: seq<Chunk>): Text {
    if chunks == [] then [] else Shown(chunks[0]) + Encoded(chunks[1..])
  }

  /** The text that is meant. */
  function Meaning(chunks: seq<Chunk>): (text: Text)
    requires AllProper(chunks)
    ensures |text| == |chunks| && forall i :: 0 <= i < |chunks| ==> text[i] == Meant(chunks[i])
  {
    seq(|chunks|, i requires 0 <= i < |chunks| => Meant(chunks[i]))
  }

  lemma {:induction false} EncodedIsText(chunks: seq<Chunk>)
    requires AllProper(chunks)
    ensures NUL !in Encoded(chunks)
  {
    if chunks != [] {
      EncodedIsText(chunks[1..]);
      assert Proper(chunks[0]) && NUL !in Shown(chunks[0]);
    }
  }

  /** Three characters or fewer are copied. */
  lemma {:induction false} ShortTextIsCopied(text: Text)
    requires |text| <= 3
    ensures Decode(text) == Some(text)
  {
    if text != [] {
      ShortTextIsCopied(text[1..]);
      assert [text[0]] + text[1..] == text;
    }
  }

  /** The escape is one of those in the tables. */
  predicate Known(chunk: Chunk) {
    chunk.Escaped? ==> Unescape(chunk.hi, chunk.lo) != NUL
  }

  predicate AllKnown(chunks: seq<Chunk>) {
    forall i :: 0 <= i < |chunks| ==> Known(chunks[i])
  }

  /** What decoding an encoded text gives, in full: the last chunk is left as it is shown, whatever
      it is; before it every chunk gives the character that is meant, and an escape outside the
      tables makes the whole fail. */
  function Outcome(chunks: seq<Chunk>): Option<Text>
    requires AllProper(chunks)
  {
    var n := |chunks| - 1;
    if chunks == [] then Some([])
    else if AllKnown(chunks[..n]) then Some(Meaning(chunks)[..n] + Shown(chunks[n]))
    else None
  }

  lemma DecodeFirst(chunk: Chunk, rest: Text)
    requires Proper(chunk) && rest != []
    ensures Decode(Shown(chunk) + rest)
         == if Known(chunk) then Prepend([Meant(chunk)], Decode(rest)) else None
  {
    var text := Shown(chunk) + rest;
    if chunk.Escaped? {
      TablesAreOctets(chunk.hi, chunk.lo);
      assert text[1] == chunk.hi && text[2] == chunk.lo && text[3..] == rest;
    } else {
      assert text[1..] == rest;
    }
  }

  lemma OutcomeOfMore(chunks: seq<Chunk>)
    requires AllProper(chunks) && |chunks| > 1
    ensures Outcome(chunks)
         == if Known(chunks[0]) then Prepend([Meant(chunks[0])], Outcome(chunks[1..])) else None
  {
    var rest, n := chunks[1..], |chunks| - 1;
    assert chunks[..n] == [chunks[0]] + rest[..n - 1];
    assert AllKnown(chunks[..n]) <==> Known(chunks[0]) && AllKnown(rest[..n - 1]);
    assert rest[n - 1] == chunks[n];
    var first, tail := [Meant(chunks[0])], Meaning(rest)[..n - 1];
    assert Meaning(chunks)[..n] == first + tail;
    assert first + (tail + Shown(chunks[n])) == first + tail + Shown(chunks[n]);
  }

  lemma {:induction false} DecodingOutcome(chunks: seq<Chunk>)
    requires AllProper(chunks)
    ensures Decode(Encoded(chunks)) == Outcome(chunks)
  {
    if |chunks| == 1 {
      assert Encoded(chunks) == Shown(chunks[0]) == [] + Shown(chunks[0]);
      ShortTextIsCopied(Shown(chunks[0]));
    } else if chunks != [] {
      DecodingOutcome(chunks[1..]);
      EncodedNotEmpty(chunks[1..]);
      DecodeFirst(chunks[0], Encoded(chunks[1..]));
      OutcomeOfMore(chunks);
    }
  }

  lemma EncodedNotEmpty(chunks: seq<Chunk>)
    requires chunks != []
    ensures Encoded(chunks) != []
  {
  }

  /** The encodings the code undoes: all escapes are in the tables and none stands at the end. */
  predicate Decodable(chunks: seq<Chunk>) {
    chunks == [] || (chunks[|chunks| - 1].Plain? && AllKnown(chunks))
  }

  /** Of all percent-encodings of all texts, decoding undoes exactly those whose escapes are in the
      tables and that do not end in one. */
  lemma DecodeInvertsEncoding(chunks: seq<Chunk>)
    requires AllProper(chunks)
    ensures Decode(Encoded(chunks)) == Some(Meaning(chunks)) <==> Decodable(chunks)
  {
    DecodingOutcome(chunks);
    if chunks != [] {
      var n := |chunks| - 1;
      LastChunk(chunks);
      Cancels(Meaning(chunks)[..n], Shown(chunks[n]), [Meant(chunks[n])]);
    }
  }

  lemma LastChunk(chunks: seq<Chunk>)
    requires AllProper(chunks) && chunks != []
    ensures var n := |chunks| - 1;
            && Meaning(chunks) == Meaning(chunks)[..n] + [Meant(chunks[n])]
            && (AllKnown(chunks) <==> AllKnown(chunks[..n]) && Known(chunks[n]))
            && (Shown(chunks[n]) == [Meant(chunks[n])] <==> chunks[n].Plain?)
  {
    assert chunks == chunks[..|chunks| - 1] + [chunks[|chunks| - 1]];
  }

  lemma Cancels(a: Text, b: Text, c: Text)
    ensures a + b == a + c <==> b == c
  {
    assert (a + b)[|a|..] == b && (a + c)[|a|..] == c;
  }

  // ----- Any text at all

  /** A percent sign that two hexadecimal digits do not follow. */
  predicate Malformed(rest: Text) {
    rest != [] && rest[0] == '%' && !(|rest| >= 3 && IsHexDigit(rest[1]) && IsHexDigit(rest[2]))
  }

  /** The encoding a text begins with, up to the first malformed escape. */
  function Parsed(text: Text): (seq<Chunk>, Text) {
    if text == [] || Malformed(text) then ([], text)
    else
      var escape := text[0] == '%';
      var more := Parsed(if escape then text[3..] else text[1..]);
      ([if escape then Escaped(text[1], text[2]) else Plain(text[0])] + more.0, more.1)
  }

  lemma Assoc(a: Text, b: Text, c: Text)
    ensures a + (b + c) == a + b + c
  {
  }

  lemma EncodedFirst(chunks: seq<Chunk>, rest: Text)
    requires chunks != []
    ensures Encoded(chunks) + rest == Shown(chunks[0]) + (Encoded(chunks[1..]) + rest)
  {
    Assoc(Shown(chunks[0]), Encoded(chunks[1..]), rest);
  }

  lemma MeaningFirst(chunks: seq<Chunk>, rest: Text)
    requires AllProper(chunks) && chunks != []
    ensures Meaning(chunks) + rest == [Meant(chunks[0])] + (Meaning(chunks[1..]) + rest)
  {
    assert Meaning(chunks) == [Meant(chunks[0])] + Meaning(chunks[1..]);
    Assoc([Meant(chunks[0])], Meaning(chunks[1..]), rest);
  }

  /** The first chunk of a text, and what follows it. */
  lemma ParsedFirst(text: Text) returns (first: Chunk, after: Text)
    requires text != [] && !Malformed(text) && NUL !in text
    ensures Proper(first) && Shown(first) + after == text && |after| < |text| && NUL !in after
    ensures Parsed(text) == ([first] + Parsed(after).0, Parsed(after).1)
  {
    if text[0] == '%' {
      first, after := Escaped(text[1], text[2]), text[3..];
      assert text == ['%', text[1], text[2]] + after;
    } else {
      first, after := Plain(text[0]), text[1..];
      assert text == [text[0]] + after;
    }
  }

  lemma {:induction false} EveryTextIsParsed(text: Text)
    requires NUL !in text
    ensures AllProper(Parsed(text).0) && Encoded(Parsed(text).0) + Parsed(text).1 == text
    ensures Parsed(text).1 == [] || Malformed(Parsed(text).1)
    decreases |text|
  {
    if text == [] || Malformed(text) {
      assert [] + text == text;
    } else {
      var first, after := ParsedFirst(text);
      EveryTextIsParsed(after);
      assert Parsed(text).0[1..] == Parsed(after).0;
      EncodedFirst(Parsed(text).0, Parsed(text).1);
    }
  }

  lemma MalformedOutcome(rest: Text)
    requires Malformed(rest)
    ensures Decode(rest) == if |rest| <= 3 then Some(rest) else None
  {
    if |rest| <= 3 {
      ShortTextIsCopied(rest);
    } else {
      TablesAreOctets(rest[1], rest[2]);
    }
  }

  /** A malformed escape is refused when more than three characters remain, itself included, and
      otherwise left as it is. */
  lemma {:induction false} DecodingStopsAtMalformed(chunks: seq<Chunk>, rest: Text)
    requires AllProper(chunks) && Malformed(rest)
    ensures Decode(Encoded(chunks) + rest)
         == if AllKnown(chunks) && |rest| <= 3 then Some(Meaning(chunks) + rest) else None
  {
    if chunks == [] {
      assert [] + rest == rest && Meaning(chunks) == [];
      MalformedOutcome(rest);
    } else {
      DecodingStopsAtMalformed(chunks[1..], rest);
      EncodedFirst(chunks, rest);
      MeaningFirst(chunks, rest);
      DecodeFirst(chunks[0], Encoded(chunks[1..]) + rest);
      assert AllKnown(chunks) <==> Known(chunks[0]) && AllKnown(chunks[1..]);
    }
  }

  /** What decoding makes of any C string. */
  lemma DecodingOfAnyText(text: Text)
    requires NUL !in text
    ensures AllProper(Parsed(text).0)
    ensures var (chunks, rest) := Parsed(text);
            Decode(text) == if rest == [] then Outcome(chunks)
                            else if AllKnown(chunks) && |rest| <= 3 then Some(Meaning(chunks) + rest)
                            else None
  {
    var (chunks, rest) := Parsed(text);
    EveryTextIsParsed(text);
    if rest == [] {
      assert Encoded(chunks) + rest == Encoded(chunks);
      DecodingOutcome(chunks);
    } else {
      DecodingStopsAtMalformed(chunks, rest);
    }
  }

  /** A slash at the end is left as it is written; an ampersand, and a plus with a small letter,
      are refused. */
  lemma FailingEncodings()
    ensures Decode("a%2F") == Some("a%2F") && Octet('2', 'F') == '/'
    ensures Decode("%26x") == None && Octet('2', '6') == '&'
    ensures Decode("%2bx") == None && Octet('2', 'b') == '+'
  {
    var tail := "a%2F"[1..];
    assert tail == "%2F";
    ShortTextIsCopied(tail);
    assert ['a'] + tail == "a%2F";
  }
}
