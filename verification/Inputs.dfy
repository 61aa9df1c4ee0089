/** What any request is given, by its request line and its headers; and runs of a connection
    that gets one in a single read, some in which the program does not do what one expects. */
module Inputs {
  import opened Text
  import opened Headers
  import opened Replies
  import opened Lifecycle
  import opened Session
  import opened Framing
  import opened Requests
  import opened Heads
  import opened Chunking
  import opened Places
  import opened Responses

  // ---- what a request is given ----

  // The targets that take a body.
  ghost predicate BodyTarget(t: string) {
    IEquals(t, "/ailaw") || IEquals(t, "/analyse") || IEquals(t, "/item")
  }

  ghost predicate TakesIts(q: Request) { IEquals(q.parts.verb, "POST") && BodyTarget(q.target) }

  /** The content and the status line that a request with this body gets. */
  ghost function Given(q: Request, body: string, env: Env): (string, string) {
    if !IEquals(q.parts.verb, "POST") then (env.pages.badRequest, "HTTP/1.1 400 Bad Request")
    else if !IEquals(q.target, "/analyse") then (env.pages.notFound, "HTTP/1.1 404 Not Found")
    else match env.analyse(body)
      case Some(text) => (text, "HTTP/1.1 200 OK")
      case None => (env.pages.error, "HTTP/1.1 500 Internal Server Error")
  }

  // What the handlers find in the head of a request.
  ghost predicate Found(q: Request, opts: Options) {
    && (IsPost(opts) <==> IEquals(q.parts.verb, "POST")) && (TakesBody(opts) <==> TakesIts(q))
    && (UriIs(opts, ANALYSE) <==> IEquals(q.target, "/analyse")) && Length(opts) == q.length
  }

  lemma FoundInHead(q: Request)
    requires Proper(q)
    ensures GoodHead(HeadText(q)) && Found(q, HeadOpts(HeadText(q)))
  {
    hide IsPost, UriIs, Length, GoodHead, HeadOpts, HeadText, Proper, IEquals;
    HeadSays(q, AILAW);
    HeadSays(q, ANALYSE);
    HeadSays(q, ITEM);
  }

  /** For any request line and any headers: whether a body belongs to the request and how
      long it is, and which content and which status line it gets. */
  lemma RequestTable(q: Request, body: string, env: Env)
    requires Proper(q)
    ensures var f := Frame(HeadText(q), body);
            && (Http().ok(f) <==> |body| == if TakesIts(q) then q.length else 0)
            && Answering(Http(), f, env) == Given(q, body, env)
  {
    FoundInHead(q);
    HttpHead(HeadText(q), body);
    hide Http, IsPost, UriIs, Length, GoodHead, HeadOpts, HeadText, Proper, IEquals;
    PostTakesBody(HeadOpts(HeadText(q)));
  }

  // ---- such requests ----

  function LengthField(n: nat): seq<Field> { [(CONTENT_LENGTH, Decimal(n))] }

  function Asking(line: string, verb: string, uri: string, target: string, n: nat): Request {
    Request(line, RequestLine(verb, " ", uri, " HTTP/1.1\r"), target, LengthField(n), n)
  }

  lemma AnnouncedLength(n: nat)
    ensures AllWellFormed(LengthField(n)) && Plain(LengthField(n)) && AnnouncesLength(LengthField(n), n)
  {
    assert |CONTENT_LENGTH| == 14 && |REQUEST_URI| == 12 && |REQUEST_METHOD| == 15;
    GoodLength(n);
    AtoiOfDecimal(n, "");
    assert Decimal(n) + "" == Decimal(n);
    hide WellFormed, Decimal, Atoi;
    assert IEquals(CONTENT_LENGTH, LengthField(n)[0].0);
  }

  /** A posted request for an analysis, and one that means the same. */
  lemma PostIsProper(n: nat)
    ensures Proper(Asking("POST /analyse HTTP/1.1", "POST", "/analyse", "/analyse", n))
  {
    AnnouncedLength(n);
    hide AllWellFormed, Plain, AnnouncesLength, LengthField, IsRequestLine, Trim;
    PostLine("POST /analyse HTTP/1.1", "POST", "/analyse");
  }

  lemma SlashedIsProper(n: nat)
    ensures Proper(Asking("post /Analyse// HTTP/1.1", "post", "/Analyse//", "/Analyse", n))
  {
    AnnouncedLength(n);
    SlashesOff();
    hide AllWellFormed, Plain, AnnouncesLength, LengthField, IsRequestLine, Trim, WithoutSlashes;
    PostLine("post /Analyse// HTTP/1.1", "post", "/Analyse//");
  }

  lemma SlashesOff()
    ensures WithoutSlashes("/Analyse//", "/Analyse")
  {
    assert "/Analyse//" == "/Analyse" + "//";
  }

  lemma AnyCase(n: nat)
    ensures TakesIts(Asking("post /Analyse// HTTP/1.1", "post", "/Analyse//", "/Analyse", n))
    ensures IEquals("/Analyse", "/analyse")
  {
  }

  lemma PostLine(line: string, verb: string, uri: string)
    requires OneLine(line) && NoColon(line) && line == verb + (" " + (uri + " HTTP/1.1"))
    requires verb != "" && forall i :: 0 <= i < |verb| ==> IsAlpha(verb[i])
    requires uri != "" && Trimmed(uri) && forall i :: 0 <= i < |uri| ==> NotBlank(uri[i])
    ensures IsRequestLine(line, RequestLine(verb, " ", uri, " HTTP/1.1\r")) && Trim(uri) == uri
  {
  }

  // ---- a head read together with the bytes behind it ----

  /** What a read does to the program depends on the head, and on how much is behind it. */
  lemma HaltOf(h: string, extra: string)
    requires GoodHead(h)
    ensures Find(h + extra, BLANK_LINE) >= 0 && HeadHalt(h + extra) == RouteHalt(HeadOpts(h), extra)
  {
    hide Fields, Parsed, CStr, HeadOpts, IsPost;
    hide NulFree, TakesBody, UriIs, Length, Lookup;
    FindExtends(h, extra, BLANK_LINE);
    OptsOfHead(h + extra, h);
    Cut(h, extra);
  }

  function Read(q: Request, body: string, extra: string): Event { HeadArrives(HeadText(q) + (body + extra)) }

  /** A client that pipelines: with more bytes behind the head than the body has, the
      assertion of read_head_handler fails, for every body and all these bytes. */
  lemma PipeliningHalts(s: Session, env: Env, q: Request, body: string, extra: string) returns (r: Trace)
    requires Fresh(s) && PrintsReplies(env) && Proper(q) && TakesIts(q) && q.length == |body| && extra != ""
    ensures IsTrace(r) && |r.events| == 1 && r.states[0] == s && r.events[0] == Read(q, body, extra)
    ensures r.states[1].halt.TooManyBytes?
  {
    hide HeadHalt, HeadOpts, Length, TakesBody, HeadText, After, PrintsReplies, Proper, TakesIts;
    var h, e := HeadText(q), Read(q, body, extra);
    FoundInHead(q);
    HaltOf(h, body + extra);
    assert s.request + e.data == h + (body + extra);
    r := OneEvent(s, e, env);
    HaltsExactly(r, 0);
  }

  lemma OneEvent(s: Session, e: Event, env: Env) returns (r: Trace)
    requires Fresh(s) && PrintsReplies(env) && Possible(s, e)
    ensures IsTrace(r) && r == Trace([s, After(s, e, env)], [e], [env])
  {
    hide After, PrintsReplies;
    r := Trace([s, After(s, e, env)], [e], [env]);
  }

  // ---- a request that comes in one read ----

  /** Between s and t the request was served: analysed if it asks for that, and given its
      reply unless s was marked bad. */
  ghost predicate Answered(s: Session, t: Session, q: Request, body: string, env: Env) {
    && t.halt.Going? && t.stats.Working? && t.reading == [HeadRead] && t.before == s.before
    && t.frames == s.frames + [Frame(HeadText(q), body)]
    && t.dispatched == s.dispatched + (if IEquals(q.target, "/analyse") then [body] else [])
    && t.sent == s.sent + if s.stats.Working? then [env.printer(Given(q, body, env).0, Given(q, body, env).1)] else []
  }

  lemma CompletesAll(r: Session, env: Env, q: Request, body: string, replies: iset<string>)
    requires Prints(env, replies) && r.halt.Going? && r.reading == [] && Found(q, r.opts) && TakesIts(q)
    requires r.rSize == |body| <= |r.buffer| && r.buffer[..r.rSize] == body && r.head == HeadText(q)
    ensures Answered(r, Complete(r, env), q, body, env)
  {
    hide Answer, Fill, IsPost, UriIs, Length, HeadText, IEquals;
    var (content, line) := Given(q, body, env);
    var done := Served(r, body);
    if UriIs(r.opts, ANALYSE) {
      AnswerFilled(done.(dispatched := done.dispatched + [body]), content, line, env, replies);
    } else {
      AnswerFilled(done, content, line, env, replies);
    }
  }

  lemma TakesAll(c: Session, env: Env, q: Request, body: string, replies: iset<string>)
    requires Prints(env, replies) && c.halt.Going? && c.reading == [] && Found(q, c.opts) && TakesIts(q)
    requires c.request == body && c.head == HeadText(q) && 0 < q.length == |body|
    ensures Answered(c, TakeBody(c, env), q, body, env)
  {
    hide Complete, Stored, UriIs, Length, IsPost, IEquals, HeadText, TakesIts, Given;
    var r := Moved(c).(rSize := |body|);
    assert r.buffer[..r.rSize] == body;
    CompletesAll(r, env, q, body, replies);
  }

  // The head of a read taken off, and what is left handed on.
  ghost function HeadTaken(s: Session, h: string, extra: string): Session
    requires GoodHead(h) && Fields(CStr(h + extra)).Some?
  {
    s.(reading := [], request := extra, received := s.received + (h + extra), head := h,
       opts := Parsed(Fields(CStr(h + extra)).value))
  }

  lemma HeadIsTaken(s: Session, env: Env, h: string, extra: string)
    requires s.halt.Going? && s.reading == [HeadRead] && s.request == "" && GoodHead(h)
    ensures Possible(s, HeadArrives(h + extra)) && Fields(CStr(h + extra)).Some?
    ensures After(s, HeadArrives(h + extra), env) == Route(HeadTaken(s, h, extra), env)
    ensures SameRequest(HeadTaken(s, h, extra).opts, HeadOpts(h))
  {
    hide Fields, Parsed, CStr, HeadOpts, SameRequest, Route, Answer, Fill, NulFree, Find;
    var text := h + extra;
    assert "" + text == text && |h| > 0;
    FindExtends(h, extra, BLANK_LINE);
    OptsOfHead(text, h);
    Cut(h, extra);
  }

  lemma FoundAlike(q: Request, a: Options, b: Options)
    requires SameRequest(a, b) && Found(q, b)
    ensures Found(q, a)
  {
    hide IsPost, TakesBody, UriIs, Length, TakesIts;
  }

  // A request with a body that arrives in one read.
  ghost predicate InOneRead(q: Request, body: string) {
    Proper(q) && TakesIts(q) && q.length == |body| && body != ""
  }

  lemma RequestIsServed(s: Session, env: Env, q: Request, body: string)
    requires PrintsReplies(env) && s.halt.Going? && s.reading == [HeadRead] && s.request == "" && InOneRead(q, body)
    ensures Possible(s, Read(q, body, "")) && Answered(s, After(s, Read(q, body, ""), env), q, body, env)
  {
    RepliesPrinted(env);
    hide HeadText, Fields, Parsed, CStr, HeadOpts, Length, IsPost, UriIs, PrintsReplies, TakeBody, Possible, After, Found;
    var h := HeadText(q);
    assert body + "" == body;
    FoundInHead(q);
    HeadIsTaken(s, env, h, body);
    var c := HeadTaken(s, h, body);
    FoundAlike(q, c.opts, HeadOpts(h));
    RoutesOn(q, c, env);
    TakesAll(c, env, q, body, AllReplies());
    hide Answered;
    AnsweredSame(s, c, After(s, Read(q, body, ""), env), q, body, env);
  }

  lemma RoutesOn(q: Request, c: Session, env: Env)
    requires Found(q, c.opts) && TakesIts(q)
    ensures Route(c, env) == TakeBody(c, env)
  {
    hide TakeBody;
  }

  lemma AnsweredSame(s: Session, c: Session, t: Session, q: Request, body: string, env: Env)
    requires Answered(c, t, q, body, env) && c.before == s.before && c.frames == s.frames && c.dispatched == s.dispatched
    requires c.sent == s.sent && c.stats == s.stats
    ensures Answered(s, t, q, body, env)
  {
  }

  lemma TwoEvents(s: Session, d: Event, e: Event, env: Env) returns (r: Trace)
    requires Fresh(s) && PrintsReplies(env) && Possible(s, d) && Possible(After(s, d, env), e)
    ensures var t := After(s, d, env); IsTrace(r) && r == Trace([s, t, After(t, e, env)], [d, e], [env, env])
  {
    hide After, PrintsReplies, Possible;
    r := Trace([s, After(s, d, env), After(After(s, d, env), e, env)], [d, e], [env, env]);
  }

  /** A request that arrives after the wheel has marked its connection is served, and
      analysed if it asks for that, and gets no reply; and it takes the mark away. */
  lemma ServedUnanswered(s: Session, env: Env, q: Request, body: string) returns (r: Trace)
    requires Fresh(s) && PrintsReplies(env) && InOneRead(q, body)
    ensures IsTrace(r) && |r.events| == 2 && r.states[0] == s && r.events == [Evicted, Read(q, body, "")]
    ensures |r.states| == |r.envs| + 1 == |r.events| + 1 && !CalledInTime(r, 2)
    ensures r.states[1].stats.Error? && r.states[2].stats.Working? && r.states[2].halt.Going?
    ensures |AllFrames(r.states[2])| == 1 && |r.states[2].sent| == 0
    ensures IEquals(q.target, "/analyse") ==> r.states[2].dispatched == [body]
  {
    var m := s.(stats := Error);
    assert Possible(s, Evicted) && m == After(s, Evicted, env);
    hide HeadText, PrintsReplies, Given, After, IsTrace, Possible, InOneRead, IEquals;
    RequestIsServed(m, env, q, body);
    r := TwoEvents(s, Evicted, Read(q, body, ""), env);
    assert ServedAt(r, 1) && CalledFor(r, 1).Some?;
  }

  /** The same request on a connection that has not been marked is answered: for "/analyse"
      its body is analysed and the reply is what comes of that; for "/ailaw" and "/item" the
      body is taken off the stream, given to nobody, and the reply is 404. */
  lemma ServedAnswered(s: Session, env: Env, q: Request, body: string) returns (r: Trace)
    requires Fresh(s) && PrintsReplies(env) && InOneRead(q, body)
    ensures IsTrace(r) && |r.events| == 1 && r.states[0] == s && r.events == [Read(q, body, "")]
    ensures AllFrames(r.states[1]) == [Frame(HeadText(q), body)]
    ensures if IEquals(q.target, "/analyse") then
              && r.states[1].dispatched == [body]
              && r.states[1].sent == [match env.analyse(body)
                                      case Some(text) => env.printer(text, "HTTP/1.1 200 OK")
                                      case None => env.printer(env.pages.error, "HTTP/1.1 500 Internal Server Error")]
            else
              && r.states[1].dispatched == []
              && r.states[1].sent == [env.printer(env.pages.notFound, "HTTP/1.1 404 Not Found")]
  {
    hide HeadText, PrintsReplies, After, Proper, IEquals;
    RequestIsServed(s, env, q, body);
    r := OneEvent(s, Read(q, body, ""), env);
  }

  // ---- a head with a NUL ----

  // A read of which the parser makes nothing, up to its reply.
  function BadRead(s: Session, h: string, more: string): Session {
    Dropped(s.(reading := [], received := h + more, request := more, head := h))
  }

  ghost predicate BadHead(h: string) {
    Find(h, BLANK_LINE) >= 0 && Find(h, BLANK_LINE) + 4 == |h| && !NulFree(h)
  }

  lemma BadArrival(s: Session, env: Env, h: string, more: string)
    requires Fresh(s) && BadHead(h)
    ensures Possible(s, HeadArrives(h + more)) && Loses(s, HeadArrives(h + more))
    ensures After(s, HeadArrives(h + more), env) == Answer(Fill(BadRead(s, h, more), env.pages.error, SERVER_ERROR, env), env.now)
  {
    hide Route, Answer, Fill, Fields, Parsed, CStr, NulFree, Find, Dropped;
    var text := h + more;
    assert "" + text == text;
    FindExtends(h, more, BLANK_LINE);
    Cut(h, more);
    ParsesIff(text, h);
  }

  // What its reply leaves behind.
  lemma BadReply(s: Session, env: Env, h: string, more: string)
    requires Fresh(s) && PrintsReplies(env)
    ensures var t := Answer(Fill(BadRead(s, h, more), env.pages.error, SERVER_ERROR, env), env.now);
            && t.halt.Going? && t.request == "" && AllReceived(t) == h + more && AllFrames(t) == [] && t.dispatched == []
            && t.sent == [ErrorReply(env)]
  {
    RepliesPrinted(env);
    AnswerFilled(BadRead(s, h, more), env.pages.error, SERVER_ERROR, env, AllReplies());
    hide Answer, Fill, PrintsReplies, Prints;
    assert "" + (h + more) + "" == h + more;
  }

  /** A head with a NUL before its blank line, for any such head and any bytes behind it: it
      is answered with an error, no request is served, and what came along with it, were it
      a whole well-formed request, is thrown away. */
  lemma BadHeadLoses(s: Session, env: Env, h: string, more: string) returns (r: Trace)
    requires Fresh(s) && PrintsReplies(env) && BadHead(h)
    ensures IsTrace(r) && |r.states| == |r.events| + 1 && r.states[0] == s && r.events == [HeadArrives(h + more)]
    ensures LosesAt(r, 0) && r.states[1].halt.Going? && r.states[1].request == ""
    ensures AllReceived(r.states[1]) == h + more && AllFrames(r.states[1]) == [] && r.states[1].dispatched == []
    ensures r.states[1].sent == [ErrorReply(env)]
  {
    hide PrintsReplies, After, Possible, Loses, BadHead, Answer, Fill, BadRead, AllReceived, AllFrames;
    BadArrival(s, env, h, more);
    BadReply(s, env, h, more);
    r := OneEvent(s, HeadArrives(h + more), env);
  }

  /** For instance one that consists of a NUL. */
  lemma NulHead()
    ensures BadHead("\0\r\n\r\n")
  {
    var h := "\0\r\n\r\n";
    assert h[0] == '\0' && h[1..] == BLANK_LINE;
    assert BLANK_LINE <= h[1..] && Find(h[1..], BLANK_LINE) == 0;
  }
}
