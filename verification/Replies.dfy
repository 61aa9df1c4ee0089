/** reply_generate, and the proof that parse_request reads back what it printed. */
module Replies {
  import opened Text
  import opened Headers

  const SEPARATOR := ": "

  // ---- http_proto::status: each constant is one of these lines and CRLF ----

  const OK := "HTTP/1.1 200 OK"
  const BAD_REQUEST := "HTTP/1.1 400 Bad Request"
  const NOT_FOUND := "HTTP/1.1 404 Not Found"
  const SERVER_ERROR := "HTTP/1.1 500 Internal Server Error"

  // ---- what is printed ----

  function HeaderLine(h: Field): string { h.0 + SEPARATOR + h.1 }

  function PrintHeaders(hs: seq<Field>): string
    decreases |hs|
  {
    if hs == [] then "" else HeaderLine(hs[0]) + CRLF + PrintHeaders(hs[1..])
  }

  function Message(line: string, hs: seq<Field>, content: string): string {
    line + CRLF + PrintHeaders(hs) + CRLF + content
  }

  function ReplyHeaders(date: string, size: nat): (hs: seq<Field>)
    ensures |hs| == 6
  {
    [("Server", "ailawd/1.0"), ("Date", date), ("Content-Length", Decimal(size)), ("Content-Type", "text/html"),
     ("Connection", "keep-alive"), ("Access-Control-Allow-Origin", "*")]
  }

  function Reply(content: string, line: string, date: string): string {
    Message(line, ReplyHeaders(date, |content|), content)
  }

  lemma {:induction false} PrintHeadersAppend(hs: seq<Field>, h: Field)
    ensures PrintHeaders(hs + [h]) == PrintHeaders(hs) + HeaderLine(h) + CRLF
    decreases |hs|
  {
    if hs == [] {
      assert (hs + [h])[1..] == [];
    } else {
      assert (hs + [h])[1..] == hs[1..] + [h];
      PrintHeadersAppend(hs[1..], h);
    }
  }

  /** reply_generate: the vector of headers filled by index, then appended in a loop. */
  method ReplyGenerate(content: string, status: string, date: string, ghost line: string) returns (str: string)
    requires status == line + CRLF
    ensures str == Reply(content, line, date)
  {
    var headers := FixedHeaders(date, |content|);
    str := AppendHeaders(status, headers);
    str := str + CRLF;
    str := str + content;
  }

  method FixedHeaders(date: string, size: nat) returns (headers: array<Field>)
    ensures fresh(headers) && headers[..] == ReplyHeaders(date, size)
  {
    headers := new Field[6](i => ("", ""));
    headers[0] := ("Server", "ailawd/1.0");
    headers[1] := ("Date", date);
    headers[2] := ("Content-Length", Decimal(size));
    headers[3] := ("Content-Type", "text/html");
    headers[4] := ("Connection", "keep-alive");
    headers[5] := ("Access-Control-Allow-Origin", "*");
  }

  method AppendHeaders(status: string, headers: array<Field>) returns (str: string)
    ensures str == status + PrintHeaders(headers[..])
  {
    str := status;
    var i := 0;
    while i < headers.Length
      invariant i <= headers.Length && str == status + PrintHeaders(headers[..i])
    {
      ghost var before := str;
      str := str + headers[i].0;
      str := str + SEPARATOR;
      str := str + headers[i].1;
      str := str + CRLF;
      assert str == before + (HeaderLine(headers[i]) + CRLF);
      assert headers[..i + 1] == headers[..i] + [headers[i]];
      PrintHeadersAppend(headers[..i], headers[i]);
      i := i + 1;
    }
    assert headers[..i] == headers[..];
  }

  // ---- what can be read back ----

  predicate OneLine(s: string) {
    forall i :: 0 <= i < |s| ==> s[i] != '\r' && s[i] != '\n' && s[i] != '\0'
  }

  predicate NoColon(s: string) {
    forall i :: 0 <= i < |s| ==> s[i] != ':'
  }

  /** A header that survives printing: one line, name and value without padding, and a
      name without a colon. */
  predicate WellFormed(h: Field) {
    OneLine(h.0) && OneLine(h.1) && Trimmed(h.0) && Trimmed(h.1) && NoColon(h.0)
  }

  predicate AllWellFormed(hs: seq<Field>) {
    forall i :: 0 <= i < |hs| ==> WellFormed(hs[i])
  }

  /** A status line: a line that is neither a header nor a request line. */
  predicate IsStatusLine(line: string) {
    line != "" && OneLine(line) && LineFields(line + "\r") == []
  }

  // The shape of every line of http_proto::status.
  lemma StatusLine(line: string)
    requires OneLine(line) && NoColon(line) && |line| > 4 && line[4] == '/' && forall i :: 0 <= i < 4 ==> IsAlpha(line[i])
    ensures IsStatusLine(line)
  {
    var s := line + "\r";
    assert NoColon(s) && FindChar(s, ':') < 0;
    SpanIs(s, IsAlpha, 4);
    SpanIs(s[4..], IsBlank, 0);
  }

  lemma StatusOk() ensures IsStatusLine(OK) { StatusLine(OK); }
  lemma StatusBadRequest() ensures IsStatusLine(BAD_REQUEST) { StatusLine(BAD_REQUEST); }
  lemma StatusNotFound() ensures IsStatusLine(NOT_FOUND) { StatusLine(NOT_FOUND); }
  lemma StatusServerError() ensures IsStatusLine(SERVER_ERROR) { StatusLine(SERVER_ERROR); }

  // ---- the blank line that ends the head is the first one ----

  lemma NotHere(s: string, pat: string)
    requires s != "" && !(pat <= s) && Find(s[1..], pat) >= 0
    ensures Find(s, pat) == 1 + Find(s[1..], pat)
  {
  }

  lemma {:induction false} SkipLine(l: string, t: string, pat: string)
    requires |pat| == 4 && pat[0] == '\r' && pat[2] == '\r'
    requires OneLine(l) && t != "" && t[0] != '\r' && Find(t, pat) >= 0
    ensures Find(l + "\r\n" + t, pat) == |l| + 2 + Find(t, pat)
  {
    var s := l + "\r\n" + t;
    if l == "" {
      assert s[2] == t[0] && s[1..][0] == '\n';
      assert s[1..][1..] == t;
      NotHere(s[1..], pat);
      NotHere(s, pat);
    } else {
      assert s[0] == l[0];
      assert s[1..] == l[1..] + "\r\n" + t;
      SkipLine(l[1..], t, pat);
      NotHere(s, pat);
    }
  }

  lemma {:induction false} LastLine(l: string, t: string, pat: string)
    requires OneLine(l) && pat != "" && pat[0] == '\r'
    ensures Find(l + pat + t, pat) == |l|
  {
    var s := l + pat + t;
    if l == "" {
      assert s == pat + t;
    } else {
      assert s[0] == l[0];
      assert s[1..] == l[1..] + pat + t;
      LastLine(l[1..], t, pat);
      NotHere(s, pat);
    }
  }

  lemma {:induction false} EndOfHead(l: string, hs: seq<Field>, t: string)
    requires OneLine(l) && AllWellFormed(hs)
    ensures Find(l + CRLF + PrintHeaders(hs) + CRLF + t, BLANK_LINE) == |l| + |PrintHeaders(hs)|
    decreases |hs|
  {
    if hs == [] {
      assert l + CRLF + PrintHeaders(hs) + CRLF + t == l + BLANK_LINE + t;
      LastLine(l, t, BLANK_LINE);
    } else {
      var h := HeaderLine(hs[0]);
      var rest := h + CRLF + PrintHeaders(hs[1..]) + CRLF + t;
      assert l + CRLF + PrintHeaders(hs) + CRLF + t == l + CRLF + rest;
      assert OneLine(h) && |h| >= 2 && rest[0] == h[0];
      EndOfHead(h, hs[1..], t);
      SkipLine(l, rest, BLANK_LINE);
    }
  }

  // ---- the head line by line ----

  lemma LineAndRest(l: string, t: string)
    requires OneLine(l)
    ensures FirstLine(l + CRLF + t) == l + "\r" && AfterLine(l + CRLF + t) == t
  {
    FindCharIs(l + CRLF + t, '\n', |l| + 1);
    assert (l + CRLF + t)[..|l| + 1] == l + "\r";
  }

  lemma HeaderOneLine(h: Field)
    requires WellFormed(h)
    ensures OneLine(HeaderLine(h)) && HeaderLine(h) != ""
  {
  }

  lemma HeaderFields(h: Field)
    requires WellFormed(h)
    ensures LineFields(HeaderLine(h) + "\r") == [h]
  {
    var line := HeaderLine(h) + "\r";
    FindCharIs(line, ':', |h.0|);
    assert line[..|h.0|] == "" + h.0 + "";
    assert line[|h.0| + 1..] == " " + h.1 + "\r";
    TrimOff("", h.0, "");
    TrimOff(" ", h.1, "\r");
  }

  lemma BlockStep(l: string, t: string)
    requires OneLine(l) && l != ""
    ensures BlockFields(l + CRLF + t) == LineFields(l + "\r") + BlockFields(t)
  {
    LineAndRest(l, t);
    assert |l + "\r"| != |"\r"|;
  }

  lemma BlockEnd()
    ensures BlockFields(CRLF) == []
  {
    LineAndRest("", "");
    assert "" + CRLF + "" == CRLF && "" + "\r" == "\r";
  }

  lemma {:induction false} ReadHeaders(hs: seq<Field>)
    requires AllWellFormed(hs)
    ensures BlockFields(PrintHeaders(hs) + CRLF) == hs
    decreases |hs|
  {
    hide BlockFields, LineFields, HeaderLine;
    if hs == [] {
      BlockEnd();
      assert PrintHeaders(hs) + CRLF == CRLF;
    } else {
      var h, rest := HeaderLine(hs[0]), PrintHeaders(hs[1..]) + CRLF;
      HeaderOneLine(hs[0]);
      HeaderFields(hs[0]);
      PrintedStep(h, PrintHeaders(hs[1..]));
      BlockStep(h, rest);
      ReadHeaders(hs[1..]);
      assert hs == [hs[0]] + hs[1..];
    }
  }

  lemma PrintedStep(h: string, rest: string)
    ensures h + CRLF + rest + CRLF == h + CRLF + (rest + CRLF)
  {
  }

  lemma HeadFields(l: string, hs: seq<Field>)
    requires OneLine(l) && l != "" && LineFields(l + "\r") == [] && AllWellFormed(hs)
    ensures BlockFields(l + CRLF + PrintHeaders(hs) + CRLF) == hs
  {
    assert l + CRLF + PrintHeaders(hs) + CRLF == l + CRLF + (PrintHeaders(hs) + CRLF);
    BlockStep(l, PrintHeaders(hs) + CRLF);
    ReadHeaders(hs);
  }

  /** The round trip for any list of well-formed headers: parsing a printed message
      yields its content and its headers, all of them, in order and with nothing added. */
  lemma ParsePrinted(line: string, hs: seq<Field>, content: string)
    requires IsStatusLine(line) && AllWellFormed(hs)
    ensures Fields(Message(line, hs, content)) == Some([(REQUEST_BODY, content)] + hs)
  {
    var head := line + CRLF + PrintHeaders(hs) + CRLF;
    assert Message(line, hs, content) == head + content;
    EndOfHead(line, hs, content);
    HeadFields(line, hs);
    assert (head + content)[..|head|] == head && (head + content)[|head|..] == content;
  }

  lemma {:induction false} PrintedNulFree(hs: seq<Field>)
    requires AllWellFormed(hs)
    ensures NulFree(PrintHeaders(hs))
    decreases |hs|
  {
    if hs != [] { PrintedNulFree(hs[1..]); }
  }

  lemma MessageNulFree(line: string, hs: seq<Field>, content: string)
    requires OneLine(line) && AllWellFormed(hs) && NulFree(content)
    ensures NulFree(Message(line, hs, content))
  {
    PrintedNulFree(hs);
  }

  /** Names that differ from each other, and from the name of the body, in more than
      letter case. */
  predicate CaseDistinct(hs: seq<Field>) {
    && (forall i, j :: 0 <= i < j < |hs| ==> !IEquals(hs[i].0, hs[j].0))
    && (forall i :: 0 <= i < |hs| ==> hs[i].0 != "" && !IEquals(hs[i].0, REQUEST_BODY))
  }

  // Among the fields of a printed message, those that match a name are all alike.
  lemma OnlySpelling(hs: seq<Field>, content: string, i: nat, name: string)
    requires CaseDistinct(hs) && i <= |hs|
    requires IEquals(name, ([(REQUEST_BODY, content)] + hs)[i].0)
    ensures var fs := [(REQUEST_BODY, content)] + hs;
            && IsFirst(fs, i)
            && forall j :: 0 <= j < |fs| && IEquals(name, fs[j].0) ==> j == i
  {
    var fs := [(REQUEST_BODY, content)] + hs;
    assert forall j :: 1 <= j < |fs| ==> fs[j] == hs[j - 1];
    forall j | 0 <= j < |fs| && IEquals(name, fs[j].0) ensures j == i {
      assert IEquals(fs[i].0, fs[j].0) && IEquals(fs[j].0, fs[i].0);
    }
    forall j | 0 <= j < i ensures fs[j].0 != fs[i].0 {
      assert IEquals(name, fs[j].0) ==> j == i;
    }
  }

  /** Every header of a printed message is found again under any letter case of its name,
      and the body under its own name, by a parser that sees the message as a C string. */
  lemma PrintedIsFound(line: string, hs: seq<Field>, content: string, i: nat, name: string)
    requires IsStatusLine(line) && AllWellFormed(hs) && CaseDistinct(hs) && NulFree(content)
    requires i < |hs| && IEquals(name, hs[i].0)
    ensures var text := Message(line, hs, content);
            && NulFree(text) && Fields(text).Some?
            && Lookup(Parsed(Fields(text).value), name) == hs[i].1
            && Lookup(Parsed(Fields(text).value), REQUEST_BODY) == content
  {
    ParsePrinted(line, hs, content);
    MessageNulFree(line, hs, content);
    FoundInFields(hs, content, i, name);
  }

  lemma FoundInFields(hs: seq<Field>, content: string, i: nat, name: string)
    requires CaseDistinct(hs) && i < |hs| && IEquals(name, hs[i].0)
    ensures var opts := Parsed([(REQUEST_BODY, content)] + hs);
            Lookup(opts, name) == hs[i].1 && Lookup(opts, REQUEST_BODY) == content
  {
    var fs := [(REQUEST_BODY, content)] + hs;
    assert fs[i + 1] == hs[i];
    OnlySpelling(hs, content, i + 1, name);
    OneSpelling(fs, name, i + 1);
    OnlySpelling(hs, content, 0, REQUEST_BODY);
    OneSpelling(fs, REQUEST_BODY, 0);
  }

  // ---- the six headers of the program ----

  lemma GoodServer() ensures WellFormed(("Server", "ailawd/1.0")) {}
  lemma GoodDate(date: string) requires OneLine(date) && Trimmed(date) ensures WellFormed(("Date", date)) {}
  lemma GoodLength(n: nat)
    ensures WellFormed(("Content-Length", Decimal(n)))
  {
    var d := Decimal(n);
    assert IsDigit(d[0]) && IsDigit(d[|d| - 1]);
  }
  lemma GoodType() ensures WellFormed(("Content-Type", "text/html")) {}
  lemma GoodConnection() ensures WellFormed(("Connection", "keep-alive")) {}
  lemma GoodOrigin() ensures WellFormed(("Access-Control-Allow-Origin", "*")) {}

  lemma ReplyHeadersGood(date: string, size: nat)
    requires OneLine(date) && Trimmed(date)
    ensures AllWellFormed(ReplyHeaders(date, size)) && CaseDistinct(ReplyHeaders(date, size))
  {
    GoodServer(); GoodDate(date); GoodLength(size); GoodType(); GoodConnection(); GoodOrigin();
    LengthsDiffer(ReplyHeaders(date, size));
  }

  lemma LengthsDiffer(hs: seq<Field>)
    requires |hs| == 6
    requires |hs[0].0| == 6 && |hs[1].0| == 4 && |hs[2].0| == 14
    requires |hs[3].0| == 12 && |hs[4].0| == 10 && |hs[5].0| == 27
    ensures CaseDistinct(hs)
  {
    assert |REQUEST_BODY| == 13;
  }

  /** The round trip of the program's own replies: the body comes back, every header is
      found under any letter case, and atoi reads the size off the Content-Length. */
  lemma ReplyRoundTrip(content: string, line: string, date: string, i: nat, name: string)
    requires IsStatusLine(line) && NulFree(content) && OneLine(date) && Trimmed(date)
    requires i < 6 && IEquals(name, ReplyHeaders(date, |content|)[i].0)
    ensures var text := Reply(content, line, date);
            && NulFree(text) && Fields(text).Some?
            && (var opts := Parsed(Fields(text).value);
                && Lookup(opts, REQUEST_BODY) == content
                && Lookup(opts, name) == ReplyHeaders(date, |content|)[i].1
                && (i == 2 ==> Atoi(Lookup(opts, name)) == |content|))
  {
    hide Message, Fields, Parsed, Lookup, Atoi;
    var hs := ReplyHeaders(date, |content|);
    ReplyHeadersGood(date, |content|);
    PrintedIsFound(line, hs, content, i, name);
    AtoiOfDecimal(|content|, "");
    assert Decimal(|content|) + "" == Decimal(|content|);
  }
  lemma StatusFirst(line: string, content: string, date: string)
    requires IsStatusLine(line)
    ensures FirstLine(Reply(content, line, date)) == line + "\r"
  {
    hide FirstLine, PrintHeaders, LineFields, OneLine;
    var rest := PrintHeaders(ReplyHeaders(date, |content|)) + CRLF + content;
    LineAndRest(line, rest);
    hide ReplyHeaders;
    assert Reply(content, line, date) == line + CRLF + rest;
  }

  /** What a client reads in any reply of the program: its status line comes first, then
      header by header. */
  lemma SixHeaders(content: string, line: string, date: string)
    requires IsStatusLine(line) && NulFree(content) && OneLine(date) && Trimmed(date)
    ensures FirstLine(Reply(content, line, date)) == line + "\r" && Fields(Reply(content, line, date)).Some?
    ensures var opts := Parsed(Fields(Reply(content, line, date)).value);
            && Lookup(opts, "Server") == "ailawd/1.0" && Lookup(opts, "Date") == date
            && Lookup(opts, "Content-Length") == Decimal(|content|) && Lookup(opts, "Content-Type") == "text/html"
            && Lookup(opts, "Connection") == "keep-alive" && Lookup(opts, "Access-Control-Allow-Origin") == "*"
  {
    hide IsStatusLine, NulFree, OneLine, Trimmed, Reply, Fields, Parsed, Lookup, Atoi, Decimal, FirstLine;
    StatusFirst(line, content, date);
    ReplyRoundTrip(content, line, date, 0, "Server");
    ReplyRoundTrip(content, line, date, 1, "Date");
    ReplyRoundTrip(content, line, date, 2, "Content-Length");
    ReplyRoundTrip(content, line, date, 3, "Content-Type");
    ReplyRoundTrip(content, line, date, 4, "Connection");
    ReplyRoundTrip(content, line, date, 5, "Access-Control-Allow-Origin");
  }
}
