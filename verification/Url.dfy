/** `seperate_query` (src/url/url.c) on its fixed-size arrays. */
module Url {
  import opened Config
  import opened CStrings
  import opened Decoder
  import opened Query

  /** What the r-th pair holds when the scan has come as far as these segments. */
  function SlotAt(segments: seq<Text>, r: nat): (slot: Slot)
    ensures |slot.key| == |slot.value| == MAX_FIELD_SIZE
  {
    if r + 1 < |segments| then Ended(SlotOf(segments[r]))
    else if r + 1 == |segments| then SlotOf(segments[r])
    else SlotOf([])
  }

  /** One more character touches the current pair alone. */
  lemma SlotExtends(segments: seq<Text>, c: char, r: nat)
    requires segments != []
    ensures SlotAt(Extend(segments, c), r)
         == if r + 1 == |segments| then Fed(SlotAt(segments, r), c) else SlotAt(segments, r)
  {
    if r + 1 == |segments| {
      ScannedNext(segments[r], c);
    }
  }

  lemma SlotStarts(segments: seq<Text>, r: nat)
    requires segments != []
    ensures SlotAt(segments + [[]], r)
         == if r + 1 == |segments| then Ended(SlotAt(segments, r)) else SlotAt(segments, r)
  {
  }

  lemma NextPrefix(text: Text, i: nat)
    requires Fits(text) && i < |text|
    ensures text[..i + 1] == text[..i] + [text[i]]
    ensures WithinBounds(Scanned(text[..i])) && WithinBounds(Scanned(text[..i] + [text[i]]))
  {
    assert text[..i + 1] == text[..i] + [text[i]];
    assert WithinBounds(Scanned(text[..i + 1]));
  }

  lemma WritesNext(text: Text, c: char)
    ensures WritesBefore(text + [c]) == WritesBefore(text) + WriteOf(Scanned(text), c)
  {
    ScannedNext(text, c);
  }

  method Write(table: array2<char>, r: nat, j: nat, c: char)
    requires r < table.Length0 && table.Length1 == MAX_FIELD_SIZE && j < MAX_FIELD_SIZE
    modifies table
    ensures RowOf(table, r) == old(RowOf(table, r))[j := c]
    ensures forall q :: 0 <= q < table.Length0 && q != r ==> RowOf(table, q) == old(RowOf(table, q))
  {
    table[r, j] := c;
  }

  method StringLength(buffer: array<char>, ghost text: Text) returns (n: nat)
    requires NUL !in text && |text| < buffer.Length && buffer[..|text|] == text && buffer[|text|] == NUL
    ensures n == |text|
  {
    assert forall k :: 0 <= k < |text| ==> buffer[k] == buffer[..|text|][k] == text[k];
    n := 0;
    while buffer[n] != NUL
      invariant n <= |text|
      decreases |text| - n
    {
      n := n + 1;
    }
  }

  class ParsedUrl {
    const path: array<char>
    const keys: array2<char>
    const values: array2<char>
    var queryCount: int
    var pathLen: int
    ghost var log: seq<Place>  // where the parser has written since the arrays were cleared

    ghost predicate Valid() {
      && path.Length == MAX_PATH_SIZE
      && keys.Length0 == MAX_QUERY_COUNT && keys.Length1 == MAX_FIELD_SIZE
      && values.Length0 == MAX_QUERY_COUNT && values.Length1 == MAX_FIELD_SIZE
      && keys != values
    }

    constructor ()
      ensures Valid() && fresh(path) && fresh(keys) && fresh(values)
      ensures path.Length == 256 && keys.Length0 == values.Length0 == 10 && keys.Length1 == values.Length1 == 128
    {
      path := new char[MAX_PATH_SIZE];
      keys := new char[MAX_QUERY_COUNT, MAX_FIELD_SIZE];
      values := new char[MAX_QUERY_COUNT, MAX_FIELD_SIZE];
    }

    /** The state of the arrays and counters when the scan has come as far as s. */
    ghost predicate Shows(s: Scan)
      requires Valid()
      reads this, path, keys, values
    {
      && |s.path| < MAX_PATH_SIZE && |s.segments| <= MAX_QUERY_COUNT
      && pathLen == |s.path| && path[..pathLen] == s.path
      && queryCount == (if s.found then |s.segments| - 1 else 0)
      && forall r :: 0 <= r < MAX_QUERY_COUNT ==>
           RowOf(keys, r) == SlotAt(s.segments, r).key && RowOf(values, r) == SlotAt(s.segments, r).value
    }

    method InitUrl()
      requires Valid()
      modifies this, path, keys, values
      ensures Shows(Scan(false, [], [])) && log == []
    {
      forall i | 0 <= i < MAX_PATH_SIZE {
        path[i] := NUL;
      }
      forall r, c | 0 <= r < MAX_QUERY_COUNT && 0 <= c < MAX_FIELD_SIZE {
        keys[r, c] := NUL;
      }
      forall r, c | 0 <= r < MAX_QUERY_COUNT && 0 <= c < MAX_FIELD_SIZE {
        values[r, c] := NUL;
      }
      queryCount, pathLen, log := 0, 0, [];
      assert forall r :: 0 <= r < MAX_QUERY_COUNT ==>
          RowOf(keys, r) == Zeros(MAX_FIELD_SIZE) && RowOf(values, r) == Zeros(MAX_FIELD_SIZE);
    }

    method WriteKey(r: nat, j: nat, c: char)
      requires Valid() && InRange(InKey(r, j))
      modifies this`log, keys
      ensures RowOf(keys, r) == old(RowOf(keys, r))[j := c] && log == old(log) + [InKey(r, j)]
      ensures forall q :: 0 <= q < MAX_QUERY_COUNT && q != r ==> RowOf(keys, q) == old(RowOf(keys, q))
    {
      Write(keys, r, j, c);
      log := log + [InKey(r, j)];
    }

    method WriteValue(r: nat, j: nat, c: char)
      requires Valid() && InRange(InValue(r, j))
      modifies this`log, values
      ensures RowOf(values, r) == old(RowOf(values, r))[j := c] && log == old(log) + [InValue(r, j)]
      ensures forall q :: 0 <= q < MAX_QUERY_COUNT && q != r ==> RowOf(values, q) == old(RowOf(values, q))
    {
      Write(values, r, j, c);
      log := log + [InValue(r, j)];
    }

    method WritePath(i: nat, c: char)
      requires Valid() && InRange(InPath(i))
      modifies this`log, path
      ensures path[..] == old(path[..])[i := c] && log == old(log) + [InPath(i)]
    {
      path[i] := c;
      log := log + [InPath(i)];
    }

    /** The arrays and the three loop variables after the characters of `before`. */
    ghost predicate Reading(before: Text, found: bool, j: nat, queryName: bool)
      requires Valid()
      reads this, path, keys, values
    {
      && Shows(Scanned(before)) && found == Scanned(before).found
      && j == SlotAt(Scanned(before).segments, queryCount).j
      && queryName == SlotAt(Scanned(before).segments, queryCount).naming
    }

    /** One character of a pair. */
    method FeedPair(ghost before: Text, c: char, j: nat, queryName: bool) returns (k: nat, naming: bool)
      requires Valid() && Reading(before, true, j, queryName) && c != '&'
      requires WithinBounds(Scanned(before)) && WithinBounds(Scanned(before + [c]))
      modifies this`log, keys, values
      ensures Reading(before + [c], true, k, naming)
      ensures log == old(log) + WriteOf(Scanned(before), c)
    {
      ScannedNext(before, c);
      ghost var segments := Scanned(before).segments;
      forall r: nat
        ensures SlotAt(Extend(segments, c), r)
             == if r + 1 == |segments| then Fed(SlotAt(segments, r), c) else SlotAt(segments, r)
      {
        SlotExtends(segments, c, r);
      }
      if c == '=' {
        WriteKey(queryCount, j, NUL);
        return 0, false;
      }
      if queryName {
        WriteKey(queryCount, j, c);
      } else {
        WriteValue(queryCount, j, c);
      }
      return j + 1, queryName;
    }

    /** One character of the query part. */
    method FeedQuery(ghost before: Text, c: char, j: nat, queryName: bool) returns (k: nat, naming: bool)
      requires Valid() && Reading(before, true, j, queryName)
      requires WithinBounds(Scanned(before)) && WithinBounds(Scanned(before + [c]))
      modifies this`queryCount, this`log, keys, values
      ensures Reading(before + [c], true, k, naming)
      ensures log == old(log) + WriteOf(Scanned(before), c)
    {
      if c == '&' {
        ScannedNext(before, c);
        ghost var segments := Scanned(before).segments;
        forall r: nat
          ensures SlotAt(segments + [[]], r)
               == if r + 1 == |segments| then Ended(SlotAt(segments, r)) else SlotAt(segments, r)
        {
          SlotStarts(segments, r);
        }
        WriteValue(queryCount, j, NUL);
        queryCount := queryCount + 1;
        return 0, true;
      }
      k, naming := FeedPair(before, c, j, queryName);
    }

    /** One character of the path part. */
    method FeedPath(ghost before: Text, c: char) returns (found: bool)
      requires Valid() && Reading(before, false, 0, true)
      requires WithinBounds(Scanned(before + [c]))
      modifies this`pathLen, this`log, path
      ensures Reading(before + [c], found, 0, true)
      ensures log == old(log) + WriteOf(Scanned(before), c)
    {
      ScannedNext(before, c);
      if c == '?' {
        return true;
      }
      WritePath(pathLen, c);
      pathLen := pathLen + 1;
      return false;
    }

    /** The path is closed by a NUL, and every counted pair is a segment's slot at its end. */
    ghost predicate Finished(s: Scan)
      requires Valid()
      reads this, path, keys, values
    {
      && pathLen == |s.path| < MAX_PATH_SIZE && path[..pathLen] == s.path && path[pathLen] == NUL
      && queryCount == |s.segments| <= MAX_QUERY_COUNT
      && forall r :: 0 <= r < |s.segments| ==>
           && RowOf(keys, r) == Ended(SlotOf(s.segments[r])).key
           && RowOf(values, r) == Ended(SlotOf(s.segments[r])).value
    }

    /** The NULs behind the path and behind the last value. */
    method Finish(ghost text: Text, found: bool, j: nat, ghost queryName: bool)
      requires Valid() && Fits(text) && Reading(text, found, j, queryName)
      modifies this`queryCount, this`log, path, values
      ensures Finished(Scanned(text))
      ensures log == old(log) + LastWrites(Scanned(text))
    {
      assert text[..|text|] == text;
      WritePath(pathLen, NUL);
      if found {
        WriteValue(queryCount, j, NUL);
        queryCount := queryCount + 1;
      }
    }

    /** The buffers so finished are the C strings that the scan says. */
    lemma FinishedHolds(text: Text)
      requires Valid() && NUL !in text && Fits(text)
      requires Finished(Scanned(text))
      ensures Holds(Scanned(text))
    {
      var s := Scanned(text);
      FitsExactly(text);
      ScanKeepsText(text);
      CStringIs(path[..], s.path);
      forall r | 0 <= r < |s.segments|
        ensures CString(RowOf(keys, r)) == KeyText(s.segments[r])
        ensures CString(RowOf(values, r)) == ValueText(s.segments[r])
      {
        SlotStrings(s.segments[r]);
      }
    }

    /** The path and each counted pair hold, as C strings, what the scan says. */
    ghost predicate Holds(s: Scan)
      requires Valid()
      reads this, path, keys, values
    {
      && CString(path[..]) == s.path && pathLen == |s.path|
      && queryCount == |s.segments| <= MAX_QUERY_COUNT
      && forall r :: 0 <= r < |s.segments| ==>
           && CString(RowOf(keys, r)) == KeyText(s.segments[r])
           && CString(RowOf(values, r)) == ValueText(s.segments[r])
    }

    /** 1 when the text does not decode; otherwise 0, with the scan of the decoded text in the
        arrays. */
    method SeperateQuery(rawPath: Text) returns (code: int)
      requires Valid() && NUL !in rawPath
      requires Decode(rawPath).Some? ==> Fits(Decode(rawPath).value)
      modifies this, path, keys, values
      ensures code == if Decode(rawPath).Some? then 0 else 1
      ensures code == 0 ==> Holds(Scanned(Decode(rawPath).value)) && log == WritesFor(Decode(rawPath).value)
    {
      InitUrl();
      var decPath := new char[|rawPath| + 1];
      var decoded := DecodeUrl(rawPath, decPath);
      if decoded != 0 {
        return 1;
      }
      ghost var text := Decode(rawPath).value;
      DecodedIsText(rawPath);
      var n := StringLength(decPath, text);
      ScanDecoded(decPath, n, text);
      return 0;
    }

    /** The round trip on the arrays: of any percent-encoding of path?k1=v1&... that decoding undoes,
        within the sizes the arrays allow, the arrays hold path, keys and values. */
    method SeperateEncoded(rawPath: Text, ghost chunks: seq<Chunk>, ghost wanted: Text, ghost pairs: seq<Pair>)
      returns (code: int)
      requires Valid() && AllProper(chunks) && Decodable(chunks) && rawPath == Encoded(chunks)
      requires pairs != [] && '?' !in wanted && AllPlain(pairs)
      requires Meaning(chunks) == Printed(Scan(true, wanted, SegmentsOf(pairs))) && Sized(wanted, pairs)
      modifies this, path, keys, values
      ensures code == 0
      ensures CString(path[..]) == wanted && pathLen == |wanted| && queryCount == |pairs| <= MAX_QUERY_COUNT
      ensures forall r :: 0 <= r < |pairs| ==>
                CString(RowOf(keys, r)) == pairs[r].key && CString(RowOf(values, r)) == pairs[r].value
    {
      EncodedIsText(chunks);
      DecodeInvertsEncoding(chunks);
      PrintedFits(wanted, pairs);
      UrlRoundTrip(chunks, wanted, pairs);
      code := SeperateQuery(rawPath);
    }

    /** The loop of seperate_query over the decoded text. */
    method ScanDecoded(decPath: array<char>, n: nat, ghost text: Text)
      requires Valid() && Shows(Scan(false, [], []))
      requires n == |text| < decPath.Length && decPath[..n] == text && NUL !in text && Fits(text)
      requires decPath != path && log == []
      modifies this, path, keys, values
      ensures Holds(Scanned(text)) && log == WritesFor(text)
    {
      var found, queryName := false, true;
      var j: nat := 0;
      for i := 0 to n
        invariant decPath[..n] == text
        invariant Reading(text[..i], found, j, queryName) && log == WritesBefore(text[..i])
        invariant !found ==> j == 0 && queryName
      {
        var c := decPath[i];
        assert c == text[i] by {
          assert c == decPath[..n][i];
        }
        NextPrefix(text, i);
        WritesNext(text[..i], c);
        if found {
          j, queryName := FeedQuery(text[..i], c, j, queryName);
        } else {
          found := FeedPath(text[..i], c);
        }
      }
      assert text[..n] == text;
      Finish(text, found, j, queryName);
      FinishedHolds(text);
    }
  }
}
