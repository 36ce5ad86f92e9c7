/** What src/url/url.c makes of a decoded text: the path, the query segments, and the key and
    value that each segment leaves in its fixed-size buffers. */
module Query {
  import opened Config
  import opened CStrings
  import opened Wrappers
  import opened Decoder

  function Last<T>(s: seq<T>): T
    requires s != []
  {
    s[|s| - 1]
  }

  function Init<T>(s: seq<T>): seq<T>
    requires s != []
  {
    s[..|s| - 1]
  }

  lemma InitAndLast<T>(s: seq<T>)
    requires s != []
    ensures Init(s) + [Last(s)] == s
  {
  }

  /** s with c added to its last text. */
  function Extend(s: seq<Text>, c: char): (t: seq<Text>)
    requires s != []
    ensures |t| == |s|
  {
    Init(s) + [Last(s) + [c]]
  }

  // ----- Path and segments

  datatype Scan = Scan(found: bool, path: Text, segments: seq<Text>)

  /** One pass over the text: the path up to the first '?', then segments split at '&'. */
  function Scanned(text: Text): (s: Scan)
    ensures s.found <==> s.segments != []
  {
    if text == [] then Scan(false, [], []) else Next(Scanned(Init(text)), Last(text))
  }

  /** The effect of one character. */
  function Next(s: Scan, c: char): (t: Scan)
    requires s.found <==> s.segments != []
    ensures t.found <==> t.segments != []
  {
    if s.found then s.(segments := if c == '&' then s.segments + [[]] else Extend(s.segments, c))
    else if c == '?' then s.(found := true, segments := [[]])
    else s.(path := s.path + [c])
  }

  function Join(parts: seq<Text>, separator: char): Text
    requires parts != []
  {
    if |parts| == 1 then parts[0] else Join(Init(parts), separator) + [separator] + Last(parts)
  }

  predicate Without(parts: seq<Text>, c: char) {
    forall i :: 0 <= i < |parts| ==> c !in parts[i]
  }

  function Printed(s: Scan): Text
    requires s.found <==> s.segments != []
  {
    if s.found then s.path + ['?'] + Join(s.segments, '&') else s.path
  }

  lemma JoinExtends(parts: seq<Text>, separator: char, c: char)
    requires parts != []
    ensures Join(Extend(parts, c), separator) == Join(parts, separator) + [c]
  {
    var extended := Extend(parts, c);
    assert Init(extended) == Init(parts) && Last(extended) == Last(parts) + [c];
  }

  lemma JoinStarts(parts: seq<Text>, separator: char)
    requires parts != []
    ensures Join(parts + [[]], separator) == Join(parts, separator) + [separator]
  {
    assert Init(parts + [[]]) == parts;
  }

  lemma PrintedExtends(s: Scan, c: char)
    requires s.segments != [] && s.found
    ensures Printed(s.(segments := Extend(s.segments, c))) == Printed(s) + [c]
    ensures Printed(s.(segments := s.segments + [[]])) == Printed(s) + ['&']
  {
    JoinExtends(s.segments, '&', c);
    JoinStarts(s.segments, '&');
    var head, body := s.path + ['?'], Join(s.segments, '&');
    assert head + (body + [c]) == head + body + [c];
    assert head + (body + ['&']) == head + body + ['&'];
  }

  lemma {:induction false} PrintedScan(text: Text)
    ensures Printed(Scanned(text)) == text
  {
    if text != [] {
      PrintedScan(Init(text));
      var s, c := Scanned(Init(text)), Last(text);
      assert text == Init(text) + [c];
      if s.found {
        PrintedExtends(s, c);
      }
    }
  }

  lemma {:induction false} ScanSeparates(text: Text)
    ensures '?' !in Scanned(text).path && Without(Scanned(text).segments, '&')
  {
    if text != [] {
      ScanSeparates(Init(text));
      var s, c := Scanned(Init(text)), Last(text);
      if s.found && c != '&' {
        assert '&' !in Last(s.segments) + [c];
      }
    }
  }

  /** The scan takes the text apart without loss: printing it gives the text back, the path has no
      '?' and no segment has an '&'. */
  lemma ScanSplitsText(text: Text)
    ensures Printed(Scanned(text)) == text
    ensures '?' !in Scanned(text).path && Without(Scanned(text).segments, '&')
  {
    PrintedScan(text);
    ScanSeparates(text);
  }

  lemma ScannedNext(text: Text, c: char)
    ensures Init(text + [c]) == text && Last(text + [c]) == c
    ensures Scanned(text + [c]) == Next(Scanned(text), c)
  {
    assert Init(text + [c]) == text;
  }

  lemma {:induction false} ScannedPath(path: Text)
    requires '?' !in path
    ensures Scanned(path) == Scan(false, path, [])
  {
    if path != [] {
      ScannedPath(Init(path));
      assert Init(path) + [Last(path)] == path;
    }
  }

  /** The segments with a word added to the last one. */
  function WithWord(segments: seq<Text>, word: Text): (t: seq<Text>)
    requires segments != []
    ensures |t| == |segments|
  {
    Init(segments) + [Last(segments) + word]
  }

  lemma ExtendWithWord(segments: seq<Text>, word: Text, c: char)
    requires segments != []
    ensures Extend(WithWord(segments, word), c) == WithWord(segments, word + [c])
  {
    assert Init(WithWord(segments, word)) == Init(segments);
    assert Last(segments) + word + [c] == Last(segments) + (word + [c]);
  }

  lemma {:induction false} ScannedWord(text: Text, word: Text)
    requires Scanned(text).found && '&' !in word
    ensures Scanned(text + word) == Scanned(text).(segments := WithWord(Scanned(text).segments, word))
    decreases |word|
  {
    var s := Scanned(text);
    if word == [] {
      assert text + word == text && Last(s.segments) + word == Last(s.segments);
      assert WithWord(s.segments, word) == s.segments;
    } else {
      var shorter, c := Init(word), Last(word);
      assert shorter + [c] == word && text + word == text + shorter + [c];
      ScannedWord(text, shorter);
      ScannedNext(text + shorter, c);
      ExtendWithWord(s.segments, shorter, c);
    }
  }

  lemma {:induction false} ScannedSegments(head: Text, path: Text, segments: seq<Text>)
    requires segments != [] && Without(segments, '&') && Scanned(head) == Scan(true, path, [[]])
    ensures Scanned(head + Join(segments, '&')) == Scan(true, path, segments)
    decreases |segments|
  {
    if |segments| == 1 {
      ScannedWord(head, segments[0]);
      WithWordAfterNone([], segments[0]);
      assert segments == [segments[0]];
    } else {
      ScannedSegments(head, path, Init(segments));
      ScannedLast(head, path, segments);
    }
  }

  lemma ScannedLast(head: Text, path: Text, segments: seq<Text>)
    requires |segments| > 1 && '&' !in Last(segments)
    requires Scanned(head + Join(Init(segments), '&')) == Scan(true, path, Init(segments))
    ensures Scanned(head + Join(segments, '&')) == Scan(true, path, segments)
  {
    var body, word := Join(Init(segments), '&'), Last(segments);
    ScannedMore(head + body, path, Init(segments), word);
    InitAndLast(segments);
    Reassociate(head, body, ['&'], word);
  }

  lemma ScannedMore(text: Text, path: Text, segments: seq<Text>, word: Text)
    requires segments != [] && '&' !in word && Scanned(text) == Scan(true, path, segments)
    ensures Scanned(text + ['&'] + word) == Scan(true, path, segments + [word])
  {
    ScannedNext(text, '&');
    ScannedWord(text + ['&'], word);
    WithWordAfterNone(segments, word);
  }

  lemma WithWordAfterNone(segments: seq<Text>, word: Text)
    ensures WithWord(segments + [[]], word) == segments + [word]
  {
    assert [] + word == word;
    assert Init(segments + [[]]) == segments;
  }

  lemma Reassociate(a: Text, b: Text, c: Text, d: Text)
    ensures a + (b + c + d) == a + b + c + d
  {
  }

  /** And it is the only way to take it apart. */
  lemma ScanInvertsPrinting(s: Scan)
    requires s.found <==> s.segments != []
    requires '?' !in s.path && Without(s.segments, '&')
    ensures Scanned(Printed(s)) == s
  {
    ScannedPath(s.path);
    ScannedNext(s.path, '?');
    if s.found {
      ScannedSegments(s.path + ['?'], s.path, s.segments);
    }
  }

  lemma {:induction false} ScanKeepsText(text: Text)
    requires NUL !in text
    ensures NUL !in Scanned(text).path && Without(Scanned(text).segments, NUL)
  {
    if text != [] {
      ScanKeepsText(Init(text));
      var s, c := Scanned(Init(text)), Last(text);
      assert s.found ==> NUL !in Last(s.segments) + [c];
    }
  }

  // ----- A segment in its buffers

  /** The segment split at every '='. */
  function Pieces(segment: Text): (pieces: seq<Text>)
    ensures pieces != []
  {
    if segment == [] then [[]]
    else if Last(segment) == '=' then Pieces(Init(segment)) + [[]]
    else Extend(Pieces(Init(segment)), Last(segment))
  }

  /** One `pair_t` being filled: its two buffers, the write index and which of them is written. */
  datatype Slot = Slot(key: Text, value: Text, j: nat, naming: bool)

  function Put(buffer: Text, j: nat, c: char): (b: Text)
    ensures |b| == |buffer|
  {
    if j < |buffer| then buffer[j := c] else buffer
  }

  function Fed(s: Slot, c: char): Slot {
    if c == '=' then s.(key := Put(s.key, s.j, NUL), j := 0, naming := false)
    else if s.naming then s.(key := Put(s.key, s.j, c), j := s.j + 1)
    else s.(value := Put(s.value, s.j, c), j := s.j + 1)
  }

  /** The slot after the characters of a segment. */
  function SlotOf(segment: Text): (s: Slot)
    ensures |s.key| == |s.value| == MAX_FIELD_SIZE
    ensures s.j == |Last(Pieces(segment))|
    ensures s.naming <==> |Pieces(segment)| == 1
  {
    if segment == [] then Slot(Zeros(MAX_FIELD_SIZE), Zeros(MAX_FIELD_SIZE), 0, true)
    else Fed(SlotOf(Init(segment)), Last(segment))
  }

  /** The slot after the segment's end, at '&' or at the end of the text. */
  function Ended(s: Slot): Slot {
    s.(value := Put(s.value, s.j, NUL))
  }

  function Shorter(a: nat, b: nat): nat {
    if a <= b then a else b
  }

  /** The length of the shortest of the first n pieces. */
  function Shortest(pieces: seq<Text>, n: nat): (length: nat)
    requires 1 <= n <= |pieces|
    ensures length <= |pieces[0]|
  {
    if n == 1 then |pieces[0]| else Shorter(Shortest(pieces, n - 1), |pieces[n - 1]|)
  }

  /** The key a segment leaves: its first piece, cut to the shortest piece but the last. */
  function KeyText(segment: Text): Text {
    var pieces := Pieces(segment);
    if |pieces| == 1 then pieces[0] else pieces[0][..Shortest(pieces, |pieces| - 1)]
  }

  /** The value it leaves: its last piece, empty when there is no '='. */
  function ValueText(segment: Text): Text {
    var pieces := Pieces(segment);
    if |pieces| == 1 then [] else Last(pieces)
  }

  predicate PiecesFit(segment: Text) {
    forall i :: 0 <= i < |Pieces(segment)| ==> |Pieces(segment)[i]| < 128
  }

  /** While the key is being read, it is the first piece and all else is zero. */
  ghost predicate NamingShape(s: Slot, name: Text)
    requires |s.key| == |s.value| == MAX_FIELD_SIZE
  {
    && |name| < MAX_FIELD_SIZE && name <= s.key
    && (forall k :: |name| <= k < MAX_FIELD_SIZE ==> s.key[k] == NUL)
    && (forall k :: 0 <= k < MAX_FIELD_SIZE ==> s.value[k] == NUL)
  }

  /** Afterwards the key is cut at `cut` and the value starts with the piece being read. */
  ghost predicate ValueShape(s: Slot, name: Text, cut: nat, piece: Text)
    requires |s.key| == |s.value| == MAX_FIELD_SIZE
  {
    && cut <= |name| && cut < MAX_FIELD_SIZE && |piece| < MAX_FIELD_SIZE
    && name[..cut] <= s.key && s.key[cut] == NUL
    && piece <= s.value
  }

  lemma FitsBefore(segment: Text)
    requires segment != [] && PiecesFit(segment)
    ensures PiecesFit(Init(segment))
  {
    var before, after := Pieces(Init(segment)), Pieces(segment);
    forall i | 0 <= i < |before| ensures |before[i]| < MAX_FIELD_SIZE {
      assert |before[i]| <= |after[i]|;
    }
  }

  lemma FeedName(s: Slot, name: Text, c: char)
    requires |s.key| == |s.value| == MAX_FIELD_SIZE && NamingShape(s, name)
    requires s.naming && s.j == |name| && c != '=' && |name| + 1 < MAX_FIELD_SIZE
    ensures NamingShape(Fed(s, c), name + [c])
  {
  }

  lemma FeedFirstEquals(s: Slot, name: Text)
    requires |s.key| == |s.value| == MAX_FIELD_SIZE && NamingShape(s, name)
    requires s.naming && s.j == |name|
    ensures ValueShape(Fed(s, '='), name, |name|, [])
  {
  }

  lemma FeedValue(s: Slot, name: Text, cut: nat, piece: Text, c: char)
    requires |s.key| == |s.value| == MAX_FIELD_SIZE && ValueShape(s, name, cut, piece)
    requires !s.naming && s.j == |piece| && c != '=' && |piece| + 1 < MAX_FIELD_SIZE
    ensures ValueShape(Fed(s, c), name, cut, piece + [c])
  {
  }

  lemma FeedNextEquals(s: Slot, name: Text, cut: nat, piece: Text)
    requires |s.key| == |s.value| == MAX_FIELD_SIZE && ValueShape(s, name, cut, piece)
    requires !s.naming && s.j == |piece|
    ensures ValueShape(Fed(s, '='), name, Shorter(cut, |piece|), [])
  {
  }

  ghost predicate Shape(s: Slot, pieces: seq<Text>)
    requires |s.key| == |s.value| == MAX_FIELD_SIZE && pieces != []
  {
    if |pieces| == 1 then NamingShape(s, pieces[0])
    else ValueShape(s, pieces[0], Shortest(pieces, |pieces| - 1), Last(pieces))
  }

  lemma EqualsShape(s: Slot, pieces: seq<Text>)
    requires |s.key| == |s.value| == MAX_FIELD_SIZE && pieces != [] && Shape(s, pieces)
    requires s.j == |Last(pieces)| && (s.naming <==> |pieces| == 1)
    ensures Shape(Fed(s, '='), pieces + [[]])
  {
    SameShortest(pieces, pieces + [[]], |pieces|);
    if |pieces| == 1 {
      FeedFirstEquals(s, pieces[0]);
    } else {
      FeedNextEquals(s, pieces[0], Shortest(pieces, |pieces| - 1), Last(pieces));
    }
  }

  lemma CharacterShape(s: Slot, pieces: seq<Text>, c: char)
    requires |s.key| == |s.value| == MAX_FIELD_SIZE && pieces != [] && Shape(s, pieces)
    requires s.j == |Last(pieces)| && (s.naming <==> |pieces| == 1)
    requires c != '=' && |Last(pieces)| + 1 < MAX_FIELD_SIZE
    ensures Shape(Fed(s, c), Extend(pieces, c))
  {
    if |pieces| == 1 {
      FeedName(s, pieces[0], c);
    } else {
      SameShortest(pieces, Extend(pieces, c), |pieces| - 1);
      FeedValue(s, pieces[0], Shortest(pieces, |pieces| - 1), Last(pieces), c);
    }
  }

  lemma {:induction false} SlotShape(segment: Text)
    requires PiecesFit(segment) && NUL !in segment
    ensures Shape(SlotOf(segment), Pieces(segment))
  {
    if segment != [] {
      FitsBefore(segment);
      SlotShape(Init(segment));
      var s, before, c := SlotOf(Init(segment)), Pieces(Init(segment)), Last(segment);
      if c == '=' {
        EqualsShape(s, before);
      } else {
        assert |Last(Pieces(segment))| < MAX_FIELD_SIZE;
        CharacterShape(s, before, c);
      }
    }
  }

  lemma {:induction false} SameShortest(p: seq<Text>, q: seq<Text>, n: nat)
    requires 1 <= n <= |p| && n <= |q| && forall i :: 0 <= i < n ==> p[i] == q[i]
    ensures Shortest(p, n) == Shortest(q, n)
  {
    if n > 1 {
      SameShortest(p, q, n - 1);
    }
  }

  lemma {:induction false} PiecesLack(segment: Text, c: char)
    requires c !in segment
    ensures Without(Pieces(segment), c)
  {
    if segment != [] {
      PiecesLack(Init(segment), c);
    }
  }

  /** What is left in the buffers when a segment ends, whatever its number of '='. */
  lemma SlotStrings(segment: Text)
    requires PiecesFit(segment) && NUL !in segment
    ensures CString(Ended(SlotOf(segment)).key) == KeyText(segment)
    ensures CString(Ended(SlotOf(segment)).value) == ValueText(segment)
  {
    SlotShape(segment);
    PiecesLack(segment, NUL);
    var s, pieces := SlotOf(segment), Pieces(segment);
    CStringIs(s.key, KeyText(segment));
    CStringIs(Ended(s).value, ValueText(segment));
  }

  // ----- Splitting a segment at its first '='

  function Key(segment: Text): Text {
    if segment == [] || segment[0] == '=' then [] else [segment[0]] + Key(segment[1..])
  }

  function Value(segment: Text): Text {
    if segment == [] then [] else if segment[0] == '=' then segment[1..] else Value(segment[1..])
  }

  lemma {:induction false} KeyAndValue(segment: Text)
    ensures '=' !in Key(segment)
    ensures segment == if '=' in segment then Key(segment) + ['='] + Value(segment) else Key(segment)
    ensures '=' !in segment ==> Value(segment) == []
  {
    if segment != [] && segment[0] != '=' {
      var rest := segment[1..];
      KeyAndValue(rest);
      Reassociate([segment[0]], Key(rest), ['='], Value(rest));
      assert segment == [segment[0]] + rest;
    }
  }

  lemma {:induction false} KeyAndValueOf(k: Text, v: Text)
    requires '=' !in k
    ensures Key(k + ['='] + v) == k && Value(k + ['='] + v) == v
  {
    if k != [] {
      KeyAndValueOf(k[1..], v);
      assert (k + ['='] + v)[1..] == k[1..] + ['='] + v;
      assert [k[0]] + k[1..] == k;
    } else {
      assert (k + ['='] + v)[1..] == v;
    }
  }

  lemma PiecesPrintMore(segment: Text)
    requires segment != []
    ensures Join(Pieces(segment), '=') == Join(Pieces(Init(segment)), '=') + [Last(segment)]
  {
    JoinStarts(Pieces(Init(segment)), '=');
    JoinExtends(Pieces(Init(segment)), '=', Last(segment));
  }

  lemma {:induction false} PiecesPrint(segment: Text)
    ensures Join(Pieces(segment), '=') == segment
  {
    if segment != [] {
      PiecesPrint(Init(segment));
      PiecesPrintMore(segment);
      InitAndLast(segment);
    }
  }

  lemma {:induction false} PiecesSeparate(segment: Text)
    ensures Without(Pieces(segment), '=')
  {
    if segment != [] {
      PiecesSeparate(Init(segment));
      assert Last(segment) != '=' ==> '=' !in Last(Pieces(Init(segment))) + [Last(segment)];
    }
  }

  lemma {:induction false} PiecesCount(segment: Text)
    ensures |Pieces(segment)| == multiset(segment)['='] + 1
  {
    if segment != [] {
      PiecesCount(Init(segment));
      assert segment == Init(segment) + [Last(segment)];
    }
  }

  lemma PiecesJoin(segment: Text)
    ensures Join(Pieces(segment), '=') == segment && Without(Pieces(segment), '=')
    ensures |Pieces(segment)| == multiset(segment)['='] + 1
  {
    PiecesPrint(segment);
    PiecesSeparate(segment);
    PiecesCount(segment);
  }

  lemma OneEquals(segment: Text)
    requires |Pieces(segment)| == 2
    ensures KeyText(segment) == Key(segment) && ValueText(segment) == Value(segment)
  {
    var pieces := Pieces(segment);
    PiecesJoin(segment);
    assert Init(pieces) == [pieces[0]];
    KeyAndValueOf(pieces[0], pieces[1]);
  }

  lemma ManyEquals(segment: Text)
    requires multiset(segment)['='] > 1
    ensures '=' in Value(segment)
  {
    var k, v := Key(segment), Value(segment);
    KeyAndValue(segment);
    assert '=' in segment;
    assert multiset(k + ['='] + v)['='] == multiset(k)['='] + 1 + multiset(v)['='];
  }

  /** A segment leaves the text before and after its first '=' exactly when it has at most one. */
  lemma SplitsAtFirstEquals(segment: Text)
    ensures KeyText(segment) == Key(segment) && ValueText(segment) == Value(segment)
       <==> multiset(segment)['='] <= 1
  {
    PiecesJoin(segment);
    if |Pieces(segment)| == 1 {
      KeyAndValue(segment);
      assert '=' !in segment;
    } else if |Pieces(segment)| == 2 {
      OneEquals(segment);
    } else {
      ManyEquals(segment);
      assert '=' !in Last(Pieces(segment));
    }
  }

  /** The texts a segment leaves hold no '=', and no character that the segment has not. */
  lemma TextsLack(segment: Text, c: char)
    requires c == '=' || c !in segment
    ensures c !in KeyText(segment) && c !in ValueText(segment)
  {
    if c == '=' {
      PiecesSeparate(segment);
    } else {
      PiecesLack(segment, c);
    }
  }

  /** A key and a value come back from the segment they are printed in exactly when neither holds
      an '='. */
  lemma PairComesBack(k: Text, v: Text)
    ensures KeyText(k + ['='] + v) == k && ValueText(k + ['='] + v) == v <==> '=' !in k && '=' !in v
  {
    TextsLack(k + ['='] + v, '=');
    if '=' !in k && '=' !in v {
      assert multiset(k + ['='] + v)['='] == multiset(k)['='] + 1 + multiset(v)['='];
      SplitsAtFirstEquals(k + ['='] + v);
      KeyAndValueOf(k, v);
    }
  }

  // ----- Round trip

  datatype Pair = Pair(key: Text, value: Text)

  function SegmentsOf(pairs: seq<Pair>): (segments: seq<Text>)
    ensures |segments| == |pairs|
    ensures forall i :: 0 <= i < |pairs| ==> segments[i] == pairs[i].key + ['='] + pairs[i].value
  {
    seq(|pairs|, i requires 0 <= i < |pairs| => pairs[i].key + ['='] + pairs[i].value)
  }

  predicate PlainPair(pair: Pair) {
    '&' !in pair.key && '=' !in pair.key && '&' !in pair.value && '=' !in pair.value
  }

  predicate AllPlain(pairs: seq<Pair>) {
    forall i :: 0 <= i < |pairs| ==> PlainPair(pairs[i])
  }

  lemma SegmentsWithout(pairs: seq<Pair>)
    requires AllPlain(pairs)
    ensures Without(SegmentsOf(pairs), '&')
  {
    forall i | 0 <= i < |pairs| ensures '&' !in SegmentsOf(pairs)[i] {
      assert PlainPair(pairs[i]);
    }
  }

  /** A percent-encoding of path?k1=v1&k2=v2... is decoded and split into the same path and
      segments exactly when it is one that decoding undoes and the path has no '?' and the pairs
      no '&' to begin with: the code decodes before it splits, so that an encoded separator
      separates. */
  lemma UrlComesBack(chunks: seq<Chunk>, path: Text, pairs: seq<Pair>)
    requires AllProper(chunks) && pairs != []
    requires Meaning(chunks) == Printed(Scan(true, path, SegmentsOf(pairs)))
    ensures Decode(Encoded(chunks)).Some?
            && Scanned(Decode(Encoded(chunks)).value) == Scan(true, path, SegmentsOf(pairs))
       <==> Decodable(chunks) && '?' !in path && Without(SegmentsOf(pairs), '&')
  {
    var s, text := Scan(true, path, SegmentsOf(pairs)), Decode(Encoded(chunks));
    DecodeInvertsEncoding(chunks);
    if text.Some? && Scanned(text.value) == s {
      ScanSplitsText(text.value);
    }
    if '?' !in path && Without(SegmentsOf(pairs), '&') {
      ScanInvertsPrinting(s);
    }
  }

  /** The path and every key and value of a scan. */
  predicate Gives(s: Scan, path: Text, pairs: seq<Pair>) {
    && s.found && s.path == path && |s.segments| == |pairs|
    && forall i :: 0 <= i < |pairs| ==>
         KeyText(s.segments[i]) == pairs[i].key && ValueText(s.segments[i]) == pairs[i].value
  }

  lemma GivenIsPlain(text: Text, path: Text, pairs: seq<Pair>)
    requires Gives(Scanned(text), path, pairs)
    ensures '?' !in path && AllPlain(pairs)
  {
    ScanSeparates(text);
    forall i | 0 <= i < |pairs| ensures PlainPair(pairs[i]) {
      TextsLack(Scanned(text).segments[i], '&');
      TextsLack(Scanned(text).segments[i], '=');
    }
  }

  lemma PlainIsGiven(path: Text, pairs: seq<Pair>)
    requires pairs != [] && '?' !in path && AllPlain(pairs)
    ensures var s := Scan(true, path, SegmentsOf(pairs)); Scanned(Printed(s)) == s && Gives(s, path, pairs)
  {
    SegmentsWithout(pairs);
    ScanInvertsPrinting(Scan(true, path, SegmentsOf(pairs)));
    forall i | 0 <= i < |pairs|
      ensures KeyText(SegmentsOf(pairs)[i]) == pairs[i].key && ValueText(SegmentsOf(pairs)[i]) == pairs[i].value
    {
      assert PlainPair(pairs[i]);
      PairComesBack(pairs[i].key, pairs[i].value);
    }
  }

  /** A segment whose last character is replaced by a longer text without '=' leaves another key
      or another value. */
  lemma ReplacedEnd(k: Text, v: Text, tail: Text)
    requires '=' !in k && '=' !in v && '=' !in tail && |tail| > 1
    ensures var segment := Init(k + ['='] + v) + tail; KeyText(segment) != k || ValueText(segment) != v
  {
    if v == [] {
      var segment := k + tail;
      assert Init(k + ['='] + v) + tail == segment;
      SplitsAtFirstEquals(segment);
      KeyAndValue(segment);
      assert Key(segment) == segment;
    } else {
      assert Init(k + ['='] + v) + tail == k + ['='] + (Init(v) + tail);
      PairComesBack(k, Init(v) + tail);
    }
  }

  lemma ScannedBefore(text: Text, path: Text, segments: seq<Text>)
    requires Scanned(text) == Scan(true, path, segments) && Last(segments) != [] && text != []
    ensures Scanned(Init(text)).found && Scanned(Init(text)).path == path
    ensures Scanned(Init(text)).segments == Init(segments) + [Init(Last(segments))]
  {
    var before := Scanned(Init(text)).segments;
    assert Last(segments) == Last(before) + [Last(text)];
    assert before == Init(before) + [Last(before)];
  }

  /** So a text whose last character is left in its escaped form does not give the pairs back. */
  lemma EscapedEndDiffers(text: Text, path: Text, pairs: seq<Pair>, tail: Text)
    requires pairs != [] && '?' !in path && AllPlain(pairs)
    requires text == Printed(Scan(true, path, SegmentsOf(pairs)))
    requires '&' !in tail && '=' !in tail && |tail| > 1
    ensures !Gives(Scanned(Init(text) + tail), path, pairs)
  {
    var segments, pair := SegmentsOf(pairs), Last(pairs);
    PlainIsGiven(path, pairs);
    ScannedBefore(text, path, segments);
    ScannedWord(Init(text), tail);
    assert PlainPair(pair) && Last(segments) == pair.key + ['='] + pair.value;
    ReplacedEnd(pair.key, pair.value, tail);
    assert Last(Scanned(Init(text) + tail).segments) == Init(Last(segments)) + tail;
  }

  lemma OutcomeEndsPlain(chunks: seq<Chunk>)
    requires AllProper(chunks) && chunks != [] && Outcome(chunks).Some?
    ensures Outcome(chunks).value == Init(Meaning(chunks)) + Shown(Last(chunks))
    ensures Last(chunks).Plain? ==> Decodable(chunks)
  {
    InitAndLast(chunks);
  }

  lemma GivenIsDecodable(chunks: seq<Chunk>, path: Text, pairs: seq<Pair>)
    requires AllProper(chunks) && chunks != [] && pairs != [] && '?' !in path && AllPlain(pairs)
    requires Meaning(chunks) == Printed(Scan(true, path, SegmentsOf(pairs)))
    requires Outcome(chunks).Some? && Gives(Scanned(Outcome(chunks).value), path, pairs)
    ensures Decodable(chunks)
  {
    OutcomeEndsPlain(chunks);
    var last := Last(chunks);
    if last.Escaped? {
      assert Proper(last);
      EscapedEndDiffers(Meaning(chunks), path, pairs, Shown(last));
    }
  }

  /** The path and all keys and values come back exactly when the encoding is one that decoding
      undoes and the separators stand where they separate. */
  lemma UrlRoundTrip(chunks: seq<Chunk>, path: Text, pairs: seq<Pair>)
    requires AllProper(chunks) && pairs != []
    requires Meaning(chunks) == Printed(Scan(true, path, SegmentsOf(pairs)))
    ensures Decode(Encoded(chunks)).Some? && Gives(Scanned(Decode(Encoded(chunks)).value), path, pairs)
       <==> Decodable(chunks) && '?' !in path && AllPlain(pairs)
  {
    DecodeInvertsEncoding(chunks);
    DecodingOutcome(chunks);
    var text := Outcome(chunks);
    if text.Some? && Gives(Scanned(text.value), path, pairs) {
      GivenIsPlain(text.value, path, pairs);
      GivenIsDecodable(chunks, path, pairs);
    }
    if '?' !in path && AllPlain(pairs) {
      PlainIsGiven(path, pairs);
    }
  }

  /** An encoded question mark ends the path: here the path is "?" and the only pair is empty. */
  lemma EncodedQuestionMark()
    ensures Decode("%3F?=") == Some("??=") && Scanned("??=") == Scan(true, [], ["?="])
  {
    assert "%3F?="[3..] == "?=" && ['?'] + "?=" == "??=";
    ShortTextIsCopied("?=");
    assert [] + ['?'] + "?=" == "??=";
    ScanInvertsPrinting(Scan(true, [], ["?="]));
  }

  /** An encoded equals sign ends what is before it: here the key is empty and the value "=x". */
  lemma EncodedEquals()
    ensures Decode("?=%3Dx") == Some("?==x") && Scanned("?==x") == Scan(true, [], ["==x"])
    ensures KeyText("==x") == [] && ValueText("==x") == "x"
  {
    EqualsDecoded();
    assert "?=%3Dx"[1..] == "=%3Dx" && ['?'] + "==x" == "?==x";
    assert [] + ['?'] + "==x" == "?==x";
    ScanInvertsPrinting(Scan(true, [], ["==x"]));
    PiecesOfTwoEquals();
  }

  lemma PiecesOfTwoEquals()
    ensures Pieces("==x") == [[], [], "x"] && KeyText("==x") == [] && ValueText("==x") == "x"
  {
    assert Init("==x") == "==" && Init("==") == "=" && Init("=") == [];
    assert [] + ['x'] == "x";
  }

  lemma EqualsDecoded()
    ensures Decode("=%3Dx") == Some("==x")
  {
    ShortTextIsCopied("x");
    assert "%3Dx"[3..] == "x" && ['='] + "x" == "=x";
    assert "=%3Dx"[1..] == "%3Dx" && ['='] + "=x" == "==x";
  }

  // ----- Bounds

  predicate WithinBounds(s: Scan) {
    && |s.path| < MAX_PATH_SIZE && |s.segments| <= MAX_QUERY_COUNT
    && (s.segments != [] ==> |Last(Pieces(Last(s.segments)))| < MAX_FIELD_SIZE)
  }

  /** Path, segments and the piece being read stay within their sizes all along. */
  ghost predicate Fits(text: Text) {
    forall n :: 0 <= n <= |text| ==> WithinBounds(Scanned(text[..n]))
  }

  lemma FitsNext(text: Text)
    requires text != []
    ensures Fits(text) <==> Fits(Init(text)) && WithinBounds(Scanned(text))
  {
    assert text[..|text|] == text;
    assert forall n :: 0 <= n < |text| ==> Init(text)[..n] == text[..n];
    if Fits(Init(text)) && WithinBounds(Scanned(text)) {
      forall n | 0 <= n <= |text| ensures WithinBounds(Scanned(text[..n])) {
        if n < |text| {
          assert WithinBounds(Scanned(Init(text)[..n]));
        }
      }
    }
    if Fits(text) {
      forall n | 0 <= n <= |Init(text)| ensures WithinBounds(Scanned(Init(text)[..n])) {
        assert WithinBounds(Scanned(text[..n]));
      }
    }
  }

  predicate AllFit(segments: seq<Text>) {
    forall i :: 0 <= i < |segments| ==> PiecesFit(segments[i])
  }

  lemma AllFitExtends(segments: seq<Text>, c: char)
    requires segments != []
    ensures AllFit(Extend(segments, c))
       <==> AllFit(segments) && |Last(Pieces(Last(Extend(segments, c))))| < MAX_FIELD_SIZE
  {
    FitsStep(Last(segments), c);
    var after := Extend(segments, c);
    assert Last(after) == Last(segments) + [c];
    assert forall i :: 0 <= i < |segments| - 1 ==> after[i] == segments[i];
    assert AllFit(after) ==> PiecesFit(Last(after));
    assert AllFit(segments) ==> PiecesFit(Last(segments));
  }

  lemma AllFitStarts(segments: seq<Text>)
    ensures AllFit(segments + [[]]) <==> AllFit(segments)
  {
    assert PiecesFit([]);
    assert forall i :: 0 <= i < |segments| ==> (segments + [[]])[i] == segments[i];
  }

  /** Which is to say: the path, the number of segments and every piece of a segment are within
      the sizes that src/config/config.h gives. */
  lemma {:induction false} FitsExactly(text: Text)
    ensures Fits(text) <==>
              && |Scanned(text).path| < 256
              && |Scanned(text).segments| <= 10
              && AllFit(Scanned(text).segments)
  {
    if text == [] {
      assert forall n :: 0 <= n <= |text| ==> text[..n] == [];
      assert WithinBounds(Scanned(text[..0]));
    } else {
      FitsNext(text);
      FitsExactly(Init(text));
      var s, c := Scanned(Init(text)), Last(text);
      if s.found {
        AllFitExtends(s.segments, c);
      }
      AllFitStarts(s.segments);
    }
  }

  /** Where a character is written. */
  datatype Place = InPath(index: nat) | InKey(row: nat, index: nat) | InValue(row: nat, index: nat)

  predicate InRange(p: Place) {
    match p
    case InPath(index) => index < MAX_PATH_SIZE
    case InKey(row, index) => row < MAX_QUERY_COUNT && index < MAX_FIELD_SIZE
    case InValue(row, index) => row < MAX_QUERY_COUNT && index < MAX_FIELD_SIZE
  }

  predicate AllInRange(writes: seq<Place>) {
    forall i :: 0 <= i < |writes| ==> InRange(writes[i])
  }

  /** The write that one character causes, if any. */
  function WriteOf(s: Scan, c: char): seq<Place>
    requires s.found <==> s.segments != []
  {
    if s.found then
      var row, slot := |s.segments| - 1, SlotOf(Last(s.segments));
      if c != '&' && (c == '=' || slot.naming) then [InKey(row, slot.j)] else [InValue(row, slot.j)]
    else if c == '?' then []
    else [InPath(|s.path|)]
  }

  /** The NULs at the end. */
  function LastWrites(s: Scan): seq<Place>
    requires s.found <==> s.segments != []
  {
    [InPath(|s.path|)]
    + (if s.found then [InValue(|s.segments| - 1, SlotOf(Last(s.segments)).j)] else [])
  }

  function WritesBefore(text: Text): seq<Place> {
    if text == [] then [] else WritesBefore(Init(text)) + WriteOf(Scanned(Init(text)), Last(text))
  }

  /** All writes for a decoded text, in order. */
  function WritesFor(text: Text): seq<Place> {
    WritesBefore(text) + LastWrites(Scanned(text))
  }

  lemma AllInRangeOf(a: seq<Place>, b: seq<Place>)
    ensures AllInRange(a + b) <==> AllInRange(a) && AllInRange(b)
  {
    assert forall i :: 0 <= i < |b| ==> (a + b)[|a| + i] == b[i];
    assert forall i :: 0 <= i < |a| ==> (a + b)[i] == a[i];
  }

  lemma LastWritesInRange(s: Scan)
    requires s.found <==> s.segments != []
    ensures AllInRange(LastWrites(s)) <==> WithinBounds(s)
  {
    var writes := LastWrites(s);
    assert writes[0] == InPath(|s.path|);
    assert s.found ==> writes[1] == InValue(|s.segments| - 1, |Last(Pieces(Last(s.segments)))|);
  }

  lemma WriteInRange(s: Scan, c: char)
    requires s.found <==> s.segments != []
    requires WithinBounds(Next(s, c))
    ensures AllInRange(WriteOf(s, c)) <==> WithinBounds(s)
  {
    var writes := WriteOf(s, c);
    assert s.found ==> writes[0].row == |s.segments| - 1 && writes[0].index == |Last(Pieces(Last(s.segments)))|;
    assert !s.found && c != '?' ==> writes[0] == InPath(|s.path|);
  }

  lemma {:induction false} WritesInRange(text: Text)
    ensures AllInRange(WritesBefore(text)) && WithinBounds(Scanned(text)) <==> Fits(text)
  {
    if text == [] {
      assert forall n :: 0 <= n <= |text| ==> text[..n] == [];
      assert WithinBounds(Scanned(text[..0]));
    } else {
      var s, c := Scanned(Init(text)), Last(text);
      WritesInRange(Init(text));
      FitsNext(text);
      AllInRangeOf(WritesBefore(Init(text)), WriteOf(s, c));
      if WithinBounds(Scanned(text)) {
        WriteInRange(s, c);
      }
    }
  }

  /** Some write leaves its array exactly when the text does not fit. */
  lemma FitsMeansInRange(text: Text)
    ensures AllInRange(WritesFor(text)) <==> Fits(text)
  {
    WritesInRange(text);
    AllInRangeOf(WritesBefore(text), LastWrites(Scanned(text)));
    LastWritesInRange(Scanned(text));
  }

  lemma FitsStep(segment: Text, c: char)
    ensures PiecesFit(segment + [c])
       <==> PiecesFit(segment) && |Last(Pieces(segment + [c]))| < MAX_FIELD_SIZE
  {
    var longer := segment + [c];
    assert Init(longer) == segment && Last(longer) == c;
    if PiecesFit(longer) {
      FitsBefore(longer);
    }
  }

  lemma PairPieces(k: Text, v: Text)
    requires '=' !in k && '=' !in v
    ensures Pieces(k + ['='] + v) == [k, v]
  {
    var segment := k + ['='] + v;
    assert multiset(segment)['='] == multiset(k)['='] + 1 + multiset(v)['='];
    PiecesCount(segment);
    PairComesBack(k, v);
    assert Pieces(segment)[0] == KeyText(segment) && Pieces(segment)[1] == ValueText(segment);
  }

  /** The sizes of path, pairs, keys and values that the arrays allow. */
  predicate Sized(path: Text, pairs: seq<Pair>) {
    && |path| < MAX_PATH_SIZE && |pairs| <= MAX_QUERY_COUNT
    && forall i :: 0 <= i < |pairs| ==> |pairs[i].key| < MAX_FIELD_SIZE && |pairs[i].value| < MAX_FIELD_SIZE
  }

  lemma PrintedFits(path: Text, pairs: seq<Pair>)
    requires pairs != [] && '?' !in path && AllPlain(pairs)
    ensures Fits(Printed(Scan(true, path, SegmentsOf(pairs)))) <==> Sized(path, pairs)
  {
    var s := Scan(true, path, SegmentsOf(pairs));
    PlainIsGiven(path, pairs);
    forall i | 0 <= i < |pairs|
      ensures PiecesFit(s.segments[i]) <==> |pairs[i].key| < MAX_FIELD_SIZE && |pairs[i].value| < MAX_FIELD_SIZE
    {
      assert PlainPair(pairs[i]);
      PairPieces(pairs[i].key, pairs[i].value);
      assert Pieces(s.segments[i])[0] == pairs[i].key && Pieces(s.segments[i])[1] == pairs[i].value;
    }
    FitsExactly(Printed(s));
  }
}
