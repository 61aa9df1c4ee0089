/** What a head says, in terms of its lines: the method, the target and the length that the
    handlers find in it, for any request line and any headers. */
module Heads {
  import opened Text
  import opened Headers
  import opened Replies
  import opened Session
  import opened Requests

  // ---- one line ----

  /** A header line: name and value without the blanks around them. */
  lemma HeaderLineMeans(name: string, value: string, a: string, b: string, c: string, d: string)
    requires AllSpace(a) && AllSpace(b) && AllSpace(c) && AllSpace(d) && Trimmed(name) && Trimmed(value) && NoColon(name)
    ensures LineFields(a + name + b + ":" + (c + value + d)) == [(name, value)]
  {
    var n, v := a + name + b, c + value + d;
    var line := n + ":" + v;
    FindCharIs(line, ':', |n|);
    assert line[..|n|] == n && line[|n| + 1..] == v;
    TrimOff(a, name, b);
    TrimOff(c, value, d);
  }

  /** A line l, behind which a CRLF follows, that is a request line with the parts m. */
  predicate IsRequestLine(l: string, m: RequestLine) {
    OneLine(l) && NoColon(l) && Matches(l + "\r", m)
  }

  /** t is u without the slashes at its end. */
  predicate WithoutSlashes(u: string, t: string) {
    t <= u && (t == "" || t[|t| - 1] != '/') && forall i :: |t| <= i < |u| ==> u[i] == '/'
  }

  lemma OneWithoutSlashes(u: string, t: string)
    requires WithoutSlashes(u, t)
    ensures t == StripSlashes(u)
  {
    assert StripSlashes(u) <= u;
  }

  lemma UpperTrimmed(verb: string)
    requires forall i :: 0 <= i < |verb| ==> IsAlpha(verb[i])
    ensures Trim(ToUpper(verb)) == ToUpper(verb)
  {
    var u := ToUpper(verb);
    forall i | 0 <= i < |u| ensures !IsSpace(u[i]) { assert IsAlpha(verb[i]) && u[i] == Upper(verb[i]); }
    assert "" + u + "" == u;
    TrimOff("", u, "");
  }

  /** A request line is any letters, the target without its trailing slashes, and the rest. */
  lemma RequestLineMeans(l: string, m: RequestLine, t: string)
    requires IsRequestLine(l, m) && WithoutSlashes(Trim(m.uri), t)
    ensures LineFields(l + "\r") == [(REQUEST_METHOD, ToUpper(m.verb)), (REQUEST_URI, t), (HTTP_VERSION, Trim(m.tail))]
  {
    assert forall i :: 0 <= i < |l + "\r"| ==> (l + "\r")[i] != ':';
    hide MatchLine, Trim, FindChar, ToUpper;
    MatchLineExact(l + "\r", m);
    UpperTrimmed(m.verb);
    OneWithoutSlashes(Trim(m.uri), t);
  }

  // ---- the whole head ----

  function Head(l: string, hs: seq<Field>): string { Message(l, hs, "") }

  function LineOptions(m: RequestLine, t: string): seq<Field> {
    [(REQUEST_METHOD, ToUpper(m.verb)), (REQUEST_URI, t), (HTTP_VERSION, Trim(m.tail))]
  }

  /** What a parsed message consists of: its body, its request line and its headers. */
  lemma MessageFields(l: string, m: RequestLine, t: string, hs: seq<Field>, body: string)
    requires IsRequestLine(l, m) && WithoutSlashes(Trim(m.uri), t) && AllWellFormed(hs)
    ensures Fields(Message(l, hs, body)) == Some([(REQUEST_BODY, body)] + (LineOptions(m, t) + hs))
    ensures GoodHead(Head(l, hs))
  {
    hide Message, BlockFields, LineFields, Matches, WithoutSlashes, AllWellFormed, OneLine, Fields, GoodHead;
    RequestLineMeans(l, m, t);
    NotEmptyLine(l, m);
    HeadIsGood(l, hs);
    HeadBlock(l, hs);
    HeadFieldsWith(Head(l, hs), body);
    MessageIs(l, hs, body);
  }

  lemma MessageIs(l: string, hs: seq<Field>, body: string)
    ensures Message(l, hs, body) == Head(l, hs) + body
  {
    hide PrintHeaders;
  }

  lemma HeadIsGood(l: string, hs: seq<Field>)
    requires OneLine(l) && AllWellFormed(hs)
    ensures GoodHead(Head(l, hs))
  {
    EndOfHead(l, hs, "");
    MessageNulFree(l, hs, "");
  }

  lemma HeadBlock(l: string, hs: seq<Field>)
    requires OneLine(l) && l != "" && AllWellFormed(hs)
    ensures BlockFields(Head(l, hs)) == LineFields(l + "\r") + hs
  {
    hide BlockFields, PrintHeaders, LineFields, OneLine, AllWellFormed;
    var rest := PrintHeaders(hs) + CRLF;
    BlockStep(l, rest);
    ReadHeaders(hs);
    assert Head(l, hs) == l + CRLF + rest;
  }

  lemma NotEmptyLine(l: string, m: RequestLine)
    requires IsRequestLine(l, m)
    ensures l != ""
  {
    assert |m.verb| + |m.blanks| + |m.uri| + |m.tail| == |l + "\r"|;
  }

  /** The options a parsed message leaves: the method in upper case, the target without the
      slashes at its end, the version, and the body. */
  lemma ParsedMessage(l: string, m: RequestLine, t: string, hs: seq<Field>, body: string)
    requires IsRequestLine(l, m) && WithoutSlashes(Trim(m.uri), t) && AllWellFormed(hs)
    ensures Fields(Message(l, hs, body)).Some?
    ensures var opts := Parsed(Fields(Message(l, hs, body)).value);
            && REQUEST_METHOD in opts && InCapitals(m.verb, opts[REQUEST_METHOD])
            && REQUEST_URI in opts && opts[REQUEST_URI] == t
            && HTTP_VERSION in opts && opts[HTTP_VERSION] == Trim(m.tail)
            && REQUEST_BODY in opts && opts[REQUEST_BODY] == body
  {
    hide Fields, Message, Parsed, Trim, ToUpper, IsRequestLine, AllWellFormed, InCapitals, WithoutSlashes, GoodHead, Head;
    MessageFields(l, m, t, hs, body);
    VerbInCapitals(l, m);
    FirstFour(body, ToUpper(m.verb), t, Trim(m.tail), hs);
  }

  lemma FirstFour(body: string, verb: string, t: string, version: string, hs: seq<Field>)
    ensures var opts := Parsed([(REQUEST_BODY, body)]
                               + ([(REQUEST_METHOD, verb), (REQUEST_URI, t), (HTTP_VERSION, version)] + hs));
            && REQUEST_METHOD in opts && opts[REQUEST_METHOD] == verb && REQUEST_URI in opts && opts[REQUEST_URI] == t
            && HTTP_VERSION in opts && opts[HTTP_VERSION] == version && REQUEST_BODY in opts && opts[REQUEST_BODY] == body
  {
    var fs := [(REQUEST_BODY, body)] + ([(REQUEST_METHOD, verb), (REQUEST_URI, t), (HTTP_VERSION, version)] + hs);
    NamesApart();
    assert fs[0] == (REQUEST_BODY, body) && fs[1] == (REQUEST_METHOD, verb);
    assert fs[2] == (REQUEST_URI, t) && fs[3] == (HTTP_VERSION, version);
    hide Parsed;
    FirstInsertionStays(fs, 0);
    FirstInsertionStays(fs, 1);
    FirstInsertionStays(fs, 2);
    FirstInsertionStays(fs, 3);
  }

  // u is the word v in capitals.
  predicate InCapitals(v: string, u: string) {
    && |u| == |v|
    && forall i :: 0 <= i < |v| ==> 'A' <= u[i] <= 'Z' && (u[i] == v[i] || u[i] as int + 32 == v[i] as int)
  }

  lemma VerbInCapitals(l: string, m: RequestLine)
    requires IsRequestLine(l, m)
    ensures InCapitals(m.verb, ToUpper(m.verb))
  {
    forall i | 0 <= i < |m.verb|
      ensures var u := ToUpper(m.verb)[i]; 'A' <= u <= 'Z' && (u == m.verb[i] || u as int + 32 == m.verb[i] as int)
    {
      assert IsAlpha(m.verb[i]);
    }
  }

  lemma NamesApart()
    ensures REQUEST_METHOD != REQUEST_BODY && REQUEST_URI != REQUEST_BODY && HTTP_VERSION != REQUEST_BODY
    ensures REQUEST_URI != REQUEST_METHOD && HTTP_VERSION != REQUEST_METHOD && HTTP_VERSION != REQUEST_URI
  {
    assert |REQUEST_BODY| == 13 && |REQUEST_METHOD| == 15 && |REQUEST_URI| == 12 && |HTTP_VERSION| == 13;
    assert REQUEST_BODY[0] != HTTP_VERSION[0];
  }

  // ---- what the handlers find ----

  /** No header has the name of the method or of the target, in any letter case. */
  ghost predicate Plain(hs: seq<Field>) {
    forall i :: 0 <= i < |hs| ==> !IEquals(REQUEST_METHOD, hs[i].0) && !IEquals(REQUEST_URI, hs[i].0)
  }

  /** The headers announce a length of n: by one header of that name, or none and n is 0. */
  ghost predicate AnnouncesLength(hs: seq<Field>, n: int) {
    || (n == 0 && forall i :: 0 <= i < |hs| ==> !IEquals(CONTENT_LENGTH, hs[i].0))
    || (exists i :: 0 <= i < |hs| && IEquals(CONTENT_LENGTH, hs[i].0) && Atoi(hs[i].1) == n
                    && forall j :: 0 <= j < |hs| && IEquals(CONTENT_LENGTH, hs[j].0) ==> j == i)
  }

  lemma NotTheLines(name: string)
    requires name == REQUEST_METHOD || name == REQUEST_URI || name == CONTENT_LENGTH
    ensures !IEquals(name, REQUEST_BODY) && !IEquals(name, HTTP_VERSION)
    ensures name != REQUEST_METHOD ==> !IEquals(name, REQUEST_METHOD)
    ensures name != REQUEST_URI ==> !IEquals(name, REQUEST_URI)
  {
    assert |REQUEST_BODY| == 13 && |REQUEST_METHOD| == 15 && |REQUEST_URI| == 12 && |HTTP_VERSION| == 13;
    assert |CONTENT_LENGTH| == 14;
  }

  lemma FoundInLine(fs: seq<Field>, m: RequestLine, t: string, hs: seq<Field>)
    requires fs == [(REQUEST_BODY, "")] + (LineOptions(m, t) + hs) && Plain(hs)
    ensures Lookup(Parsed(fs), REQUEST_METHOD) == ToUpper(m.verb) && Lookup(Parsed(fs), REQUEST_URI) == t
  {
    NamesApart();
    NotTheLines(REQUEST_METHOD);
    NotTheLines(REQUEST_URI);
    assert fs[0].0 == REQUEST_BODY && fs[1] == (REQUEST_METHOD, ToUpper(m.verb));
    assert fs[2] == (REQUEST_URI, t) && fs[3].0 == HTTP_VERSION;
    assert forall i :: 4 <= i < |fs| ==> fs[i] == hs[i - 4];
    assert IEquals(REQUEST_METHOD, REQUEST_METHOD) && IEquals(REQUEST_URI, REQUEST_URI);
    hide Parsed, Lookup, ToUpper, Trim, IEquals;
    OneSpelling(fs, REQUEST_METHOD, 1);
    OneSpelling(fs, REQUEST_URI, 2);
  }

  lemma LengthFound(fs: seq<Field>, m: RequestLine, t: string, hs: seq<Field>, n: int)
    requires fs == [(REQUEST_BODY, "")] + (LineOptions(m, t) + hs) && AnnouncesLength(hs, n)
    ensures Atoi(Lookup(Parsed(fs), CONTENT_LENGTH)) == n
  {
    NotTheLines(CONTENT_LENGTH);
    assert fs[0].0 == REQUEST_BODY && fs[1].0 == REQUEST_METHOD && fs[2].0 == REQUEST_URI && fs[3].0 == HTTP_VERSION;
    assert forall i :: 4 <= i < |fs| ==> fs[i] == hs[i - 4];
    hide Parsed, Lookup, ToUpper, Trim, IEquals;
    if i :| 0 <= i < |hs| && IEquals(CONTENT_LENGTH, hs[i].0) {
      assert fs[i + 4] == hs[i];
      OneSpelling(fs, CONTENT_LENGTH, i + 4);
    } else {
      LookupMeaning(fs, CONTENT_LENGTH);
    }
  }

  lemma UpperTwice(a: string, b: string)
    ensures IEquals(ToUpper(a), b) <==> IEquals(a, b)
  {
    assert forall i :: 0 <= i < |a| ==> Upper(ToUpper(a)[i]) == Upper(a[i]);
  }

  /** A request line and its parts, its target without the slashes at the end, the headers
      behind it and the length they announce. */
  datatype Request = Request(line: string, parts: RequestLine, target: string, headers: seq<Field>, length: int)

  ghost predicate Proper(q: Request) {
    && IsRequestLine(q.line, q.parts) && WithoutSlashes(Trim(q.parts.uri), q.target)
    && AllWellFormed(q.headers) && Plain(q.headers) && AnnouncesLength(q.headers, q.length)
  }

  function HeadText(q: Request): string { Head(q.line, q.headers) }

  /** What the handlers find in a head: it is a POST exactly if its request line says so in
      any letter case, its target is the one of the line without the slashes at the end, and
      its length the one announced. */
  lemma HeadSays(q: Request, uri: string)
    requires Proper(q)
    ensures GoodHead(HeadText(q))
    ensures var opts := HeadOpts(HeadText(q));
            && (IsPost(opts) <==> IEquals(q.parts.verb, POST))
            && (UriIs(opts, uri) <==> IEquals(q.target, uri))
            && Length(opts) == q.length
  {
    hide Fields, Parsed, Lookup, ToUpper, Trim, Message, IEquals, WithoutSlashes, AllWellFormed, Plain, AnnouncesLength, GoodHead;
    var fs := [(REQUEST_BODY, "")] + (LineOptions(q.parts, q.target) + q.headers);
    MessageFields(q.line, q.parts, q.target, q.headers, "");
    FoundInLine(fs, q.parts, q.target, q.headers);
    LengthFound(fs, q.parts, q.target, q.headers, q.length);
    UpperTwice(q.parts.verb, POST);
  }
}
