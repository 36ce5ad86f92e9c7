/** The response context of src/response.c: header slots in fixed-size tables, and the text that
    `generate_response` builds from them. */
module Response {
  import opened Config
  import opened Wrappers
  import opened CStrings
  import opened Buffer
  import opened Message

  const TEMP_LEN: int := 216

  const STATUS_OK: int := 200
  const STATUS_FORBIDDEN: int := 403
  const STATUS_NOT_FOUND: int := 404
  const STATUS_INTERNAL_SERVER_ERROR: int := 500

  /** `get_status_code`. */
  function ReasonOf(code: int): (reason: Text)
    ensures |reason| <= 21 && '\r' !in reason && NUL !in reason
  {
    if code == STATUS_NOT_FOUND then "Not Found"
    else if code == STATUS_OK then "OK"
    else if code == STATUS_FORBIDDEN then "Forbidden"
    else "Internal Server Error"
  }

  /** The text begins with the version and the three digits of the code, and the reason follows, as
      far as the first line goes. */
  predicate Begins(text: Text, code: int) {
    && |text| >= 13 && text[..9] == "HTTP/1.1 " && text[12] == ' '
    && IsDigit(text[9]) && IsDigit(text[10]) && IsDigit(text[11])
    && DigitValue(text[9]) == code / 100 && DigitValue(text[10]) == code / 10 % 10 && DigitValue(text[11]) == code % 10
    && NextLine(text).Some?
    && NextLine(text).value.0[13..]
       == if code == 200 then "OK" else if code == 403 then "Forbidden" else if code == 404 then "Not Found"
          else "Internal Server Error"
  }

  lemma WrittenBegins(m: Message)
    requires m.reason == ReasonOf(m.code)
    ensures ThreeDigits(m.code) ==> Begins(Written(m), m.code)
  {
    if ThreeDigits(m.code) {
      var line := "HTTP/1.1 " + Decimal(m.code) + " " + m.reason;
      var rest := HeaderLines(m.headers, |m.headers|) + CRLF + m.body;
      assert Written(m) == line + CRLF + rest;
      CodeIsThreeDigits(m.code);
      ReadsDecimal(m.code);
      ReadsLine(line, rest);
      assert line[13..] == m.reason;
      assert line[..9] == "HTTP/1.1 " && Written(m)[..9] == line[..9];
    }
  }

  predicate IsInt32(n: int) {
    -0x8000_0000 <= n < 0x8000_0000
  }

  lemma {:induction false} DigitsLength(n: nat, k: nat, bound: nat)
    requires k > 0 && n < bound && bound == Power10(k)
    ensures |Digits(n)| <= k
    decreases k
  {
    if n >= 10 {
      DigitsLength(n / 10, k - 1, Power10(k - 1));
    }
  }

  function Power10(k: nat): nat {
    if k == 0 then 1 else 10 * Power10(k - 1)
  }

  lemma DecimalLength(n: int)
    requires IsInt32(n)
    ensures |Decimal(n)| <= 11
  {
    assert Power10(10) == 10_000_000_000 by {
      assert Power10(2) == 100;
      assert Power10(4) == 10_000;
      assert Power10(6) == 1_000_000;
      assert Power10(8) == 100_000_000;
    }
    DigitsLength(if n < 0 then -n else n, 10, 10_000_000_000);
  }

  /** The r-th slot, its key and value read as C strings. */
  ghost function HeaderAt(keys: array2<char>, values: array2<char>, r: nat): Header
    requires r < keys.Length0 && r < values.Length0
    reads keys, values
  {
    Header(CString(RowOf(keys, r)), CString(RowOf(values, r)))
  }

  /** The first n slots. */
  ghost function HeadersOf(keys: array2<char>, values: array2<char>, n: nat): (headers: seq<Header>)
    requires n <= keys.Length0 && n <= values.Length0
    reads keys, values
    ensures |headers| == n
    ensures forall r :: 0 <= r < n ==> headers[r] == HeaderAt(keys, values, r)
  {
    seq(n, r requires 0 <= r < n && n <= keys.Length0 && n <= values.Length0
              reads keys, values => HeaderAt(keys, values, r))
  }

  /** `memcpy` of a text into a zeroed row. */
  method CopyInto(table: array2<char>, r: nat, text: Text)
    requires r < table.Length0 && |text| < table.Length1 && NUL !in text
    requires forall c :: 0 <= c < table.Length1 ==> table[r, c] == NUL
    modifies table
    ensures CString(RowOf(table, r)) == text
    ensures forall q, c :: 0 <= q < table.Length0 && 0 <= c < table.Length1 && q != r ==>
              table[q, c] == old(table[q, c])
    ensures forall q :: 0 <= q < table.Length0 && q != r ==> RowOf(table, q) == old(RowOf(table, q))
  {
    forall i | 0 <= i < |text| {
      table[r, i] := text[i];
    }
    CStringIs(RowOf(table, r), text);
  }

  class ResponseContext {
    var statusCode: int
    const headerKeys: array2<char>
    const headerValues: array2<char>
    var headerCount: nat
    var body: StringBuffer

    /** Slots not yet set are zero, as the context was when it was initialised. */
    ghost predicate Valid()
      reads `headerCount, `statusCode, headerKeys, headerValues
    {
      && headerKeys.Length0 == MAX_HEADER_COUNT && headerKeys.Length1 == MAX_FIELD_SIZE
      && headerValues.Length0 == MAX_HEADER_COUNT && headerValues.Length1 == MAX_FIELD_SIZE
      && headerKeys != headerValues && headerCount <= MAX_HEADER_COUNT && IsInt32(statusCode)
      && forall r, c :: headerCount <= r < MAX_HEADER_COUNT && 0 <= c < MAX_FIELD_SIZE ==>
           headerKeys[r, c] == NUL && headerValues[r, c] == NUL
    }

    ghost function Headers(): (headers: seq<Header>)
      requires Valid()
      reads `headerCount, `statusCode, headerKeys, headerValues
      ensures |headers| == headerCount
    {
      HeadersOf(headerKeys, headerValues, headerCount)
    }

    /** `init_resp_ctx`. */
    constructor ()
      ensures Valid() && statusCode == 0 && Headers() == []
      ensures headerKeys.Length0 == headerValues.Length0 == 128 && headerKeys.Length1 == headerValues.Length1 == 128
      ensures fresh(headerKeys) && fresh(headerValues) && fresh(body) && fresh(body.data)
      ensures body.Valid() && body.Content() == []
    {
      statusCode, headerCount := 0, 0;
      headerKeys := new char[MAX_HEADER_COUNT, MAX_FIELD_SIZE]((r, c) => NUL);
      headerValues := new char[MAX_HEADER_COUNT, MAX_FIELD_SIZE]((r, c) => NUL);
      body := new StringBuffer.FromText([]);
    }

    /** Appends a header. The bytes are copied without a NUL: the zeroed slot supplies it. */
    method SetHeader(header: Text, value: Text)
      requires Valid() && headerCount < MAX_HEADER_COUNT
      requires NUL !in header && NUL !in value && |header| < 128 && |value| < 128
      modifies this`headerCount, headerKeys, headerValues
      ensures Valid() && Headers() == old(Headers()) + [Header(header, value)]
    {
      CopyInto(headerKeys, headerCount, header);
      CopyInto(headerValues, headerCount, value);
      headerCount := headerCount + 1;
    }

    /** The message that the context stands for. */
    ghost function AsMessage(): Message
      requires Valid() && body.Valid()
      reads this, headerKeys, headerValues, body, body.data
    {
      Message(statusCode, ReasonOf(statusCode), Headers(), Strncpy(body.Content()))
    }

    lemma ContextIsReadBack()
      requires Valid() && body.Valid()
      ensures AllClean(Headers()) && NUL !in body.Content() ==>
                Read(Written(AsMessage()))
                == if !ThreeDigits(statusCode) then None
                   else Some(Message(statusCode, ReasonOf(statusCode), Trimmed(Headers()), body.Content()))
    {
      if AllClean(Headers()) && NUL !in body.Content() {
        StrncpyIsFaithful(body.Content());
        ReadsWritten(AsMessage());
      }
    }

    /** Every header line fits the temporary buffer. */
    ghost predicate LinesFit()
      requires Valid()
      reads this, headerKeys, headerValues
    {
      forall r :: 0 <= r < headerCount ==> |HeaderLine(Headers()[r])| < 216
    }

    /** One formatted line, appended. */
    method AppendLine(resp: StringBuffer, line: Text)
      requires resp.Valid() && NUL !in line && |line| < TEMP_LEN
      modifies resp
      ensures resp.Valid() && fresh(resp.data) && resp.Content() == old(resp.Content()) + line
    {
      var a := new StringBuffer.OfLength(TEMP_LEN);
      a.PrintLine(line, TEMP_LEN);
      StrncpyIsFaithful(line);
      resp.Append(a);
    }

    method HeaderText(r: nat) returns (line: Text)
      requires Valid() && r < headerCount
      ensures line == HeaderLine(Headers()[r]) && NUL !in line
    {
      var key := ReadString(headerKeys, r);
      var value := ReadString(headerValues, r);
      line := key + ": " + value + "\r\n";
    }

    /** The empty line and a copy of the body. */
    method AppendBody(resp: StringBuffer)
      requires Valid() && body.Valid() && resp.Valid() && resp != body && resp.data != body.data
      modifies resp
      ensures resp.Valid() && fresh(resp.data)
      ensures resp.Content() == old(resp.Content()) + CRLF + Strncpy(body.Content())
    {
      var separator := new StringBuffer.FromText("\r\n");
      StrncpyIsFaithful("\r\n");
      resp.Append(separator);
      var copy := body.Copy();
      resp.Append(copy);
    }

    method AppendHeader(resp: StringBuffer, r: nat)
      requires Valid() && resp.Valid() && LinesFit() && r < headerCount
      modifies resp
      ensures resp.Valid() && fresh(resp.data)
      ensures resp.Content() == old(resp.Content()) + HeaderLine(Headers()[r])
    {
      var line := HeaderText(r);
      AppendLine(resp, line);
    }

    static lemma NextHeaderLine(start: Text, headers: seq<Header>, n: nat)
      requires n < |headers|
      ensures start + HeaderLines(headers, n) + HeaderLine(headers[n]) == start + HeaderLines(headers, n + 1)
    {
    }

    /** The header lines, in order. */
    method AppendHeaders(resp: StringBuffer)
      requires Valid() && resp.Valid() && LinesFit()
      modifies resp
      ensures resp.Valid() && (fresh(resp.data) || resp.data == old(resp.data))
      ensures resp.Content() == old(resp.Content()) + HeaderLines(Headers(), headerCount)
    {
      ghost var start, headers := resp.Content(), Headers();
      for i := 0 to headerCount
        invariant resp.Valid() && (fresh(resp.data) || resp.data == old(resp.data))
        invariant resp.Content() == start + HeaderLines(headers, i)
      {
        NextHeaderLine(start, headers, i);
        AppendHeader(resp, i);
      }
    }

    /** What stands before the header lines, the header lines, the empty line and the body. */
    method Assemble(first: Text) returns (resp: StringBuffer)
      requires Valid() && body.Valid() && LinesFit() && NUL !in first && |first| < TEMP_LEN
      ensures fresh(resp) && resp.Valid() && fresh(resp.data)
      ensures resp.Content() == first + HeaderLines(Headers(), headerCount) + CRLF + Strncpy(body.Content())
    {
      resp := new StringBuffer.FromText([]);
      AppendLine(resp, first);
      assert resp.Content() == first;
      AppendHeaders(resp);
      ghost var head := first + HeaderLines(Headers(), headerCount);
      assert resp.Content() == head;
      AppendBody(resp);
      assert resp.Content() == head + CRLF + Strncpy(body.Content());
    }

    /** Status line, header lines, empty line and body. */
    method BuildResponse() returns (resp: StringBuffer)
      requires Valid() && body.Valid() && LinesFit()
      ensures fresh(resp) && resp.Valid() && fresh(resp.data)
      ensures resp.Content() == Written(AsMessage())
    {
      ReadsDecimal(statusCode);
      DecimalLength(statusCode);
      resp := Assemble(StatusLine(statusCode, ReasonOf(statusCode)));
    }

    /** The text of the context's message; and with clean headers and a body free of NULs a
        recipient reads back the status, the headers and the body of the context. */
    method GenerateResponse() returns (resp: StringBuffer)
      requires Valid() && body.Valid() && LinesFit()
      ensures fresh(resp) && resp.Valid() && fresh(resp.data)
      ensures resp.Content() == Written(AsMessage())
      ensures AllClean(Headers()) && NUL !in body.Content() ==>
                Read(resp.Content())
                == if !ThreeDigits(statusCode) then None
                   else Some(Message(statusCode, ReasonOf(statusCode), Trimmed(Headers()), body.Content()))
      ensures ThreeDigits(statusCode) ==> Begins(resp.Content(), statusCode)
    {
      ContextIsReadBack();
      WrittenBegins(AsMessage());
      resp := BuildResponse();
    }

    /** `not_found_page`. */
    method NotFoundPage(rawPath: Text)
      requires Valid() && headerCount + 3 <= MAX_HEADER_COUNT
      requires NUL !in rawPath && IsInt32(|NotFoundBody(rawPath)|)
      modifies this, headerKeys, headerValues
      ensures Valid() && statusCode == STATUS_NOT_FOUND
      ensures fresh(body) && body.Valid() && fresh(body.data) && body.Content() == NotFoundBody(rawPath)
      ensures Headers() == old(Headers()) + NotFoundHeaders(rawPath)
    {
      statusCode := STATUS_NOT_FOUND;
      body := NotFoundText(rawPath);
      ReadsDecimal(body.len);
      DecimalLength(body.len);
      SetThreeHeaders(Decimal(body.len));
    }

    method SetThreeHeaders(length: Text)
      requires Valid() && headerCount + 3 <= MAX_HEADER_COUNT && NUL !in length && |length| < MAX_FIELD_SIZE
      modifies this`headerCount, headerKeys, headerValues
      ensures Valid() && Headers() == old(Headers()) + ThreeHeaders(length)
    {
      SetHeader("Content-Length", length);
      SetHeader("Content-Type", "text/plain");
      SetHeader("Connection", "keep-alive");
    }
  }

  method NotFoundText(rawPath: Text) returns (copy: StringBuffer)
    requires NUL !in rawPath
    ensures fresh(copy) && copy.Valid() && fresh(copy.data) && copy.Content() == NotFoundBody(rawPath)
  {
    var temp := new StringBuffer.FromText("Path=");
    temp.AppendText(rawPath);
    temp.AppendText(" not found");
    copy := temp.Copy();
  }

  method ReadString(table: array2<char>, r: nat) returns (text: Text)
    requires r < table.Length0
    ensures text == CString(RowOf(table, r)) && NUL !in text
  {
    text := [];
    var i := 0;
    ghost var row := RowOf(table, r);
    assert row[0..] == row;
    while i < table.Length1 && table[r, i] != NUL
      invariant 0 <= i <= table.Length1
      invariant text + CString(row[i..]) == CString(row) && NUL !in text
    {
      assert row[i..][1..] == row[i + 1..];
      text := text + [table[r, i]];
      i := i + 1;
    }
    assert CString(row[i..]) == [];
  }

  function NotFoundBody(rawPath: Text): Text {
    "Path=" + rawPath + " not found"
  }

  function ThreeHeaders(length: Text): seq<Header> {
    [Header("Content-Length", length), Header("Content-Type", "text/plain"), Header("Connection", "keep-alive")]
  }

  function NotFoundHeaders(rawPath: Text): seq<Header> {
    ThreeHeaders(Decimal(|NotFoundBody(rawPath)|))
  }

  lemma NotFoundIsTrim(rawPath: Text)
    ensures Trimmed(NotFoundHeaders(rawPath)) == NotFoundHeaders(rawPath)
    ensures AllClean(NotFoundHeaders(rawPath))
  {
    ReadsDecimal(|NotFoundBody(rawPath)|);
    PlainHeader("Content-Length", Decimal(|NotFoundBody(rawPath)|));
    PlainHeader("Content-Type", "text/plain");
    PlainHeader("Connection", "keep-alive");
  }

  lemma ThreeLines(length: Text)
    ensures HeaderLines(ThreeHeaders(length), 3)
         == "Content-Length: " + length + "\r\n" + "Content-Type: text/plain\r\n" + "Connection: keep-alive\r\n"
  {
    var headers := ThreeHeaders(length);
    assert HeaderLine(headers[0]) == "Content-Length: " + length + "\r\n";
    assert HeaderLine(headers[1]) == "Content-Type: text/plain\r\n";
    assert HeaderLine(headers[2]) == "Connection: keep-alive\r\n";
    assert HeaderLines(headers, 1) == HeaderLine(headers[0]);
    assert HeaderLines(headers, 2) == HeaderLine(headers[0]) + HeaderLine(headers[1]);
  }

  lemma NotFoundLine()
    ensures StatusLine(404, "Not Found") == "HTTP/1.1 404 Not Found\r\n"
  {
    CodeIsThreeDigits(404);
  }

  /** The whole page as text. */
  function PageText(rawPath: Text): Text {
    "HTTP/1.1 404 Not Found\r\n"
    + ("Content-Length: " + Decimal(15 + |rawPath|) + "\r\n"
       + "Content-Type: text/plain\r\n" + "Connection: keep-alive\r\n")
    + "\r\n"
    + ("Path=" + rawPath + " not found")
  }

  function NotFoundMessage(rawPath: Text): Message {
    Message(STATUS_NOT_FOUND, ReasonOf(STATUS_NOT_FOUND), NotFoundHeaders(rawPath), NotFoundBody(rawPath))
  }

  lemma PageIsReadBack(rawPath: Text)
    ensures Written(NotFoundMessage(rawPath)) == PageText(rawPath)
    ensures Read(PageText(rawPath)) == Some(NotFoundMessage(rawPath))
    ensures ReadDecimal(NotFoundHeaders(rawPath)[0].value) == Some(|NotFoundBody(rawPath)|)
  {
    NotFoundIsTrim(rawPath);
    NotFoundIsWritten(rawPath);
    ReadsWritten(NotFoundMessage(rawPath));
    ReadsDecimal(|NotFoundBody(rawPath)|);
  }

  lemma NotFoundIsWritten(rawPath: Text)
    ensures Written(NotFoundMessage(rawPath)) == PageText(rawPath)
  {
    NotFoundLine();
    ThreeLines(Decimal(15 + |rawPath|));
    assert |NotFoundBody(rawPath)| == 15 + |rawPath|;
  }

  lemma PlainHeader(key: Text, value: Text)
    requires ':' !in key && '\r' !in key && '\r' !in value
    requires value != [] && !IsSpace(value[0]) && !IsSpace(value[|value| - 1])
    ensures Clean(Header(key, value)) && Trim(value) == value
  {
    TrimKeeps(value);
  }

  /** The headers of the page are short: each line fits the temporary buffer. */
  lemma NotFoundLinesFit(rawPath: Text)
    requires IsInt32(|NotFoundBody(rawPath)|)
    ensures forall i :: 0 <= i < 3 ==> |HeaderLine(NotFoundHeaders(rawPath)[i])| < 216
  {
    DecimalLength(|NotFoundBody(rawPath)|);
  }

  /** The not-found page from a fresh context to the text on the wire, as handle_conn makes it by
      way of handle_not_found when no file has the path, for every path that the request's buffer
      holds: the text reads back as status 404, the three headers and the body, and its
      Content-Length is the number of bytes after the blank line. */
  method RespondNotFound(rawPath: Text) returns (resp: StringBuffer)
    requires NUL !in rawPath && |rawPath| < 256
    ensures fresh(resp) && resp.Valid()
    ensures resp.Content() == PageText(rawPath)
    ensures Read(resp.Content()) == Some(Message(404, "Not Found", NotFoundHeaders(rawPath), NotFoundBody(rawPath)))
    ensures NotFoundHeaders(rawPath)[0].key == "Content-Length"
    ensures ReadDecimal(NotFoundHeaders(rawPath)[0].value) == Some(|NotFoundBody(rawPath)|)
  {
    resp := WriteNotFound(rawPath);
    PageIsReadBack(rawPath);
  }

  method WriteNotFound(rawPath: Text) returns (resp: StringBuffer)
    requires NUL !in rawPath && |rawPath| < 256
    ensures fresh(resp) && resp.Valid() && resp.Content() == Written(NotFoundMessage(rawPath))
  {
    var ctx := NotFoundContext(rawPath);
    resp := ctx.GenerateResponse();
  }

  method NotFoundContext(rawPath: Text) returns (ctx: ResponseContext)
    requires NUL !in rawPath && |rawPath| < 256
    ensures fresh(ctx) && ctx.Valid() && ctx.body.Valid() && ctx.LinesFit()
    ensures ctx.AsMessage() == NotFoundMessage(rawPath)
  {
    ctx := new ResponseContext();
    ctx.NotFoundPage(rawPath);
    NotFoundLinesFit(rawPath);
    NotFoundIsText(rawPath);
    assert ctx.Headers() == NotFoundHeaders(rawPath);
  }

  lemma NotFoundIsText(rawPath: Text)
    requires NUL !in rawPath
    ensures NUL !in NotFoundBody(rawPath) && Strncpy(NotFoundBody(rawPath)) == NotFoundBody(rawPath)
  {
    assert NUL !in NotFoundBody(rawPath);
    StrncpyIsFaithful(NotFoundBody(rawPath));
  }
}
