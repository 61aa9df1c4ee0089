/** Which reply each request gets: over any run of a connection, the writes issued are, in
    order, the replies that the requests served ask for. */
module Responses {
  import opened Text
  import opened Headers
  import opened Replies
  import opened ClientOps
  import opened Session
  import opened Framing
  import opened Streams
  import opened Requests
  import opened Chunking
  import opened Refinement
  import opened Places

  /** The content and the status line for a request: refused unless posted, the analysis
      of its own body if it asks for one, and otherwise an error. */
  function Answering(g: Grammar, f: Frame, env: Env): (string, string) {
    if !g.posted(f) then (env.pages.badRequest, BAD_REQUEST)
    else if !g.analysed(f) then (env.pages.notFound, NOT_FOUND)
    else Analysis(env, f.body)
  }

  function ReplyTo(g: Grammar, f: Frame, env: Env): string {
    env.printer(Answering(g, f, env).0, Answering(g, f, env).1)
  }

  predicate NulFreePages(pages: Pages) {
    NulFree(pages.error) && NulFree(pages.badRequest) && NulFree(pages.notFound)
  }

  lemma AnsweringFits(g: Grammar, f: Frame, env: Env)
    requires NulFreePages(env.pages) && (env.analyse(f.body).Some? ==> NulFree(env.analyse(f.body).value))
    ensures IsStatusLine(Answering(g, f, env).1) && NulFree(Answering(g, f, env).0)
  {
    hide IsStatusLine, NulFree;
    StatusOk();
    StatusBadRequest();
    StatusNotFound();
    StatusServerError();
  }

  /** Each of the four replies the program sends can be read back by its own parser: the
      client finds the status line and the content that the request asks for, and its length. */
  lemma ReplyReadsBack(g: Grammar, f: Frame, env: Env, date: string)
    requires env.printer == Printer(date) && OneLine(date) && Trimmed(date) && NulFreePages(env.pages)
    requires env.analyse(f.body).Some? ==> NulFree(env.analyse(f.body).value)
    ensures var text, content := ReplyTo(g, f, env), Answering(g, f, env).0;
            && NulFree(text) && FirstLine(text) == Answering(g, f, env).1 + "\r" && Fields(text).Some?
            && Lookup(Parsed(Fields(text).value), REQUEST_BODY) == content
            && Atoi(Lookup(Parsed(Fields(text).value), CONTENT_LENGTH)) == |content|
  {
    hide IsStatusLine, Fields, Parsed, Lookup, Atoi, Reply, Answering, NulFree, FirstLine;
    var (content, line) := Answering(g, f, env);
    AnsweringFits(g, f, env);
    assert ReplyTo(g, f, env) == Reply(content, line, date);
    ReplyRoundTrip(content, line, date, 2, CONTENT_LENGTH);
    SixHeaders(content, line, date);
  }

  /** Between s and t the request f was served; it got its reply unless s was marked bad. */
  ghost predicate Serves(g: Grammar, s: Session, t: Session, f: Frame, env: Env) {
    && t.frames == s.frames + [f]
    && t.sent == s.sent + if s.stats.Working? then [ReplyTo(g, f, env)] else []
  }

  ghost predicate Responds(g: Grammar, s: Session, t: Session, env: Env) {
    || (t.frames == s.frames && t.sent == s.sent)
    || (exists f :: Serves(g, s, t, f, env))
  }

  lemma ServesAnswer(g: Grammar, s: Session, done: Session, f: Frame, content: string, line: string, env: Env,
                     replies: iset<string>)
    requires Prints(env, replies) && done.halt.Going? && done.reading == []
    requires done.frames == s.frames + [f] && done.sent == s.sent && done.stats == s.stats
    requires ReplyTo(g, f, env) == env.printer(content, line)
    ensures Responds(g, s, Answer(Fill(done, content, line, env), env.now), env)
  {
    AnswerFilled(done, content, line, env, replies);
    hide Answer, Fill, ReplyTo;
    assert Serves(g, s, Answer(Fill(done, content, line, env), env.now), f, env);
  }

  lemma RespondsRefusal(g: Grammar, s: Session, env: Env, replies: iset<string>)
    requires Prints(env, replies) && s.halt.Going? && s.reading == []
    requires HeadMeans(g, s.head, s.opts) && !TakesBody(s.opts)
    ensures Responds(g, s, Route(s, env), env)
  {
    hide Answer, Fill, Prints;
    var f := Frame(s.head, "");
    if !IsPost(s.opts) {
      ServesAnswer(g, s, Served(s, ""), f, env.pages.badRequest, BAD_REQUEST, env, replies);
    } else {
      ServesAnswer(g, s, Served(s, ""), f, env.pages.notFound, NOT_FOUND, env, replies);
    }
  }

  lemma RespondsComplete(g: Grammar, r: Session, env: Env, replies: iset<string>)
    requires Prints(env, replies) && r.halt.Going? && r.reading == [] && HeadFits(g, r.head, r.opts)
    requires r.rSize == Length(r.opts) && r.rSize <= |r.buffer|
    ensures Responds(g, r, Complete(r, env), env)
  {
    hide Answer, Fill, Prints;
    var f := Frame(r.head, r.buffer[..r.rSize]);
    var done := Served(r, f.body);
    if !UriIs(r.opts, ANALYSE) {
      ServesAnswer(g, r, done, f, env.pages.notFound, NOT_FOUND, env, replies);
    } else {
      var asked := done.(dispatched := done.dispatched + [f.body]);
      var (content, line) := Analysis(env, f.body);
      ServesAnswer(g, r, asked, f, content, line, env, replies);
    }
  }

  lemma RespondsNothing(g: Grammar, s: Session, t: Session, env: Env)
    requires t.frames == s.frames && t.sent == s.sent
    ensures Responds(g, s, t, env)
  {
  }

  lemma RespondsMore(g: Grammar, s: Session, r: Session, env: Env)
    requires r.frames == s.frames && r.sent == s.sent && r.rSize <= Length(r.opts)
    ensures Responds(g, s, DoReadBody(r, env.now), env)
  {
  }

  // Only frames, writes and stats matter to Responds.
  lemma RespondsSame(g: Grammar, s: Session, u: Session, t: Session, env: Env)
    requires u.frames == s.frames && u.sent == s.sent && u.stats == s.stats && Responds(g, u, t, env)
    ensures Responds(g, s, t, env)
  {
    if f :| Serves(g, u, t, f, env) { assert Serves(g, s, t, f, env); }
  }

  lemma RespondsBody(g: Grammar, s: Session, ec: Ec, bytes: nat, env: Env, replies: iset<string>)
    requires Prints(env, replies) && s.halt.Going? && s.reading == [] && HeadFits(g, s.head, s.opts)
    requires s.rSize + bytes <= Length(s.opts) < |s.buffer| && !ec.Aborted?
    ensures Responds(g, s, ReadBodyHandler(s, ec, bytes, env), env)
  {
    hide Complete, Answer, Fill, Prints, HeadFits, DoReadBody, Responds;
    if ec.Success? && bytes > 0 {
      var r := s.(rSize := s.rSize + bytes);
      if r.rSize < Length(r.opts) {
        RespondsMore(g, s, r, env);
      } else {
        RespondsComplete(g, r, env, replies);
        RespondsSame(g, s, r, Complete(r, env), env);
      }
    } else {
      RespondsNothing(g, s, NotifyError(s), env);
    }
  }

  lemma RespondsTakeBody(g: Grammar, s: Session, env: Env, replies: iset<string>)
    requires Prints(env, replies) && s.halt.Going? && s.reading == [] && HeadFits(g, s.head, s.opts)
    requires |s.request| <= Length(s.opts)
    ensures Responds(g, s, TakeBody(s, env), env)
  {
    hide ReadBodyHandler, Prints, HeadFits, Stored;
    if |s.request| == Length(s.opts) {
      RespondsBody(g, Moved(s), Success, |s.request|, env, replies);
      RespondsSame(g, s, Moved(s), TakeBody(s, env), env);
    }
  }

  lemma StopsSilently(g: Grammar, s: Session, env: Env)
    requires Length(s.opts) < |s.request|
    ensures Responds(g, s, TakeBody(s, env), env)
  {
  }

  lemma RespondsRoute(g: Grammar, s: Session, env: Env, replies: iset<string>)
    requires Prints(env, replies) && s.halt.Going? && s.reading == [] && HeadMeans(g, s.head, s.opts)
    ensures Responds(g, s, Route(s, env), env)
  {
    if !TakesBody(s.opts) {
      RespondsRefusal(g, s, env, replies);
    } else {
      hide Prints, TakeBody, Responds;
      if |s.request| <= Length(s.opts) { RespondsTakeBody(g, s, env, replies); } else { StopsSilently(g, s, env); }
    }
  }

  lemma RespondsHead(g: Grammar, s: Session, bytes: nat, env: Env, replies: iset<string>)
    requires Prints(env, replies) && s.halt.Going? && s.reading == [] && 0 < bytes <= |s.request|
    requires Fields(CStr(s.request)).Some? && HeadMeans(g, s.request[..bytes], Parsed(Fields(CStr(s.request)).value))
    ensures Responds(g, s, ReadHeadHandler(s, Success, bytes, env), env)
  {
    hide Route, Answer, Fill, Prints, Fields, Parsed, HeadMeans;
    var u := s.(request := s.request[bytes..], head := s.request[..bytes], opts := Parsed(Fields(CStr(s.request)).value));
    RespondsRoute(g, u, env, replies);
    RespondsSame(g, s, u, Route(u, env), env);
  }

  // ---- one event ----

  function ErrorReply(env: Env): string { env.printer(env.pages.error, SERVER_ERROR) }

  /** What one event makes of the requests served and the writes: one that loses the place in
      the stream is answered with an error, and any other serves and answers at most one
      request; unless the connection is marked bad. */
  ghost predicate Turn(g: Grammar, s: Session, e: Event, t: Session, env: Env) {
    if Loses(s, e) then
      AllFrames(t) == AllFrames(s) && t.sent == s.sent + if s.stats.Working? then [ErrorReply(env)] else []
    else t.before == s.before && Responds(g, s, t, env)
  }

  lemma TurnLost(g: Grammar, s: Session, e: Event, u: Session, env: Env, replies: iset<string>)
    requires Prints(env, replies) && u.halt.Going? && u.reading == [] && Loses(s, e)
    requires u.sent == s.sent && u.stats == s.stats && AllFrames(u) == AllFrames(s)
    ensures Turn(g, s, e, Answer(Fill(u, env.pages.error, SERVER_ERROR, env), env.now), env)
  {
    AnswerFilled(u, env.pages.error, SERVER_ERROR, env, replies);
    hide Answer, Fill, Loses;
  }

  lemma TurnHead(g: Grammar, s: Session, data: string, text: string, env: Env, replies: iset<string>)
    requires Prints(env, replies) && Agrees(g) && Possible(s, HeadArrives(data)) && text == s.request + data
    ensures Turn(g, s, HeadArrives(data), After(s, HeadArrives(data), env), env)
  {
    hide Route, Answer, Fill, Prints, Fields, Parsed, HeadMeans, NulFree, CStr, Responds;
    var n := Find(text, BLANK_LINE) + 4;
    var u := s.(reading := [], request := text, received := s.received + data);
    ParsesIff(text, text[..n]);
    if Fields(CStr(text)).None? {
      assert AllFrames(s) + [] == AllFrames(s);
      TurnLost(g, s, HeadArrives(data), Dropped(u.(request := text[n..], head := text[..n])), env, replies);
    } else {
      assert MeansHead(g, text, n);
      RespondsHead(g, u, n, env, replies);
      ArrivalIs(s, data, text, u, n, env);
      TurnRead(g, s, data, u, After(s, HeadArrives(data), env), env);
    }
  }

  lemma ArrivalIs(s: Session, data: string, text: string, u: Session, n: nat, env: Env)
    requires Possible(s, HeadArrives(data)) && text == s.request + data && n == Find(text, BLANK_LINE) + 4
    requires u == s.(reading := [], request := text, received := s.received + data)
    ensures After(s, HeadArrives(data), env) == ReadHeadHandler(u, Success, n, env)
  {
    hide ReadHeadHandler;
  }

  lemma TurnRead(g: Grammar, s: Session, data: string, u: Session, t: Session, env: Env)
    requires Possible(s, HeadArrives(data)) && t == After(s, HeadArrives(data), env) && !Loses(s, HeadArrives(data))
    requires u.frames == s.frames && u.sent == s.sent && u.stats == s.stats && Responds(g, u, t, env)
    ensures Turn(g, s, HeadArrives(data), t, env)
  {
    hide After, Loses, Responds, Possible;
    MovesHead(s, data, env);
    RespondsSame(g, s, u, t, env);
  }

  lemma TurnBody(g: Grammar, s: Session, chunk: string, env: Env, replies: iset<string>)
    requires Prints(env, replies) && Sound(s, replies) && Framed(g, s) && Possible(s, BodyArrives(chunk))
    ensures Turn(g, s, BodyArrives(chunk), After(s, BodyArrives(chunk), env), env)
  {
    hide ReadBodyHandler, Prints, HeadFits, Responds;
    var u := s.(reading := [], buffer := Overwrite(s.buffer, s.reading[0].at, chunk), received := s.received + chunk);
    assert PlaceOf(s) == AtBody(s.reading[0].at);
    BodyStays(u, Success, |chunk|, env);
    RespondsBody(g, u, Success, |chunk|, env, replies);
    RespondsSame(g, s, u, ReadBodyHandler(u, Success, |chunk|, env), env);
  }

  lemma TurnFailure(g: Grammar, s: Session, ec: Ec, env: Env, replies: iset<string>)
    requires Prints(env, replies) && Possible(s, ReadFails(ec))
    ensures Turn(g, s, ReadFails(ec), After(s, ReadFails(ec), env), env)
  {
    hide Answer, Fill, Prints;
    if ec.Aborted? {
      var u := s.(reading := []);
      assert AllFrames(s) + [] == AllFrames(s);
      TurnLost(g, s, ReadFails(ec), Dropped(u), env, replies);
      TurnLost(g, s, ReadFails(ec), Unplaced(u), env, replies);
    }
  }

  /** So it is for every event. */
  lemma RespondsStep(g: Grammar, s: Session, e: Event, env: Env, replies: iset<string>)
    requires Prints(env, replies) && Agrees(g) && Sound(s, replies) && Framed(g, s) && Possible(s, e)
    ensures Turn(g, s, e, After(s, e, env), env)
  {
    match e
    case HeadArrives(data) => TurnHead(g, s, data, s.request + data, env, replies);
    case BodyArrives(chunk) => TurnBody(g, s, chunk, env, replies);
    case ReadFails(ec) => TurnFailure(g, s, ec, env, replies);
    case WriteEnds(_, _) =>
    case Evicted =>
  }

  // ---- traces ----

  lemma TraceStep(r: Trace, k: nat)
    requires IsTrace(r) && 0 < k < |r.states|
    ensures |r.states| - 1 == |r.events| == |r.envs| && PrintsReplies(r.envs[k - 1])
    ensures Possible(r.states[k - 1], r.events[k - 1]) && r.states[k - 1].halt.Going?
    ensures r.states[k] == After(r.states[k - 1], r.events[k - 1], r.envs[k - 1])
  {
    hide After, PrintsReplies, Fresh;
    assert Possible(r.states[k - 1], r.events[k - 1]);
  }

  lemma TraceStarts(r: Trace)
    requires IsTrace(r)
    ensures |r.states| == |r.envs| + 1 == |r.events| + 1
    ensures var s := r.states[0]; s.sent == [] && AllFrames(s) == [] && Healthy(s)
  {
  }

  /** Event j of the trace serves a request. */
  predicate ServedAt(r: Trace, j: nat)
    requires j + 1 < |r.states|
  {
    |AllFrames(r.states[j + 1])| == |AllFrames(r.states[j])| + 1
  }

  // The request it serves.
  function RequestOf(r: Trace, j: nat): Frame
    requires j + 1 < |r.states| && ServedAt(r, j)
  {
    AllFrames(r.states[j + 1])[|AllFrames(r.states[j])|]
  }

  /** The reply that event j calls for, made at that event: to the request it serves, or an
      error if it loses the place in the stream. */
  ghost function CalledFor(r: Trace, j: nat): Option<string>
    requires j + 1 < |r.states| == |r.envs| + 1 == |r.events| + 1
  {
    if LosesAt(r, j) then Some(ErrorReply(r.envs[j]))
    else if ServedAt(r, j) then Some(ReplyTo(Http(), RequestOf(r, j), r.envs[j]))
    else None
  }

  /** The replies called for by events before k on a connection not marked bad. */
  ghost function Due(r: Trace, k: nat): seq<string>
    requires k < |r.states| == |r.envs| + 1 == |r.events| + 1
  {
    if k == 0 then []
    else if CalledFor(r, k - 1).Some? && r.states[k - 1].stats.Working?
    then Due(r, k - 1) + [CalledFor(r, k - 1).value]
    else Due(r, k - 1)
  }

  lemma TurnAt(r: Trace, k: nat)
    requires IsTrace(r) && 0 < k < |r.states|
    ensures |r.states| == |r.envs| + 1 == |r.events| + 1
    ensures Turn(Http(), r.states[k - 1], r.events[k - 1], r.states[k], r.envs[k - 1])
  {
    hide IsTrace, Sound, Framed, Agrees, Prints, Possible, Turn, PrintsReplies, After;
    TraceStep(r, k);
    TraceSound(r, k - 1);
    HttpAgrees();
    RespondsStep(Http(), r.states[k - 1], r.events[k - 1], r.envs[k - 1], AllReplies());
  }

  // A turn, in terms of what is called for.
  lemma CalledNext(r: Trace, k: nat)
    requires 0 < k < |r.states| == |r.envs| + 1 == |r.events| + 1
    requires Turn(Http(), r.states[k - 1], r.events[k - 1], r.states[k], r.envs[k - 1])
    ensures var s, t, c := r.states[k - 1], r.states[k], CalledFor(r, k - 1);
            && t.sent == s.sent + (if c.Some? && s.stats.Working? then [c.value] else [])
            && AllFrames(s) <= AllFrames(t)
            && |AllFrames(t)| == |AllFrames(s)| + (if c.Some? && !LosesAt(r, k - 1) then 1 else 0)
  {
    hide Http, ReplyTo, ErrorReply, Loses;
    var s, t, env := r.states[k - 1], r.states[k], r.envs[k - 1];
    if LosesAt(r, k - 1) {
    } else if f :| Serves(Http(), s, t, f, env) {
      assert AllFrames(t) == AllFrames(s) + [f];
      assert RequestOf(r, k - 1) == f;
    } else {
      assert AllFrames(t) == AllFrames(s);
    }
  }

  lemma NextTurn(r: Trace, k: nat)
    requires IsTrace(r) && 0 < k < |r.states|
    ensures |r.states| == |r.envs| + 1 == |r.events| + 1
    ensures var s, t, c := r.states[k - 1], r.states[k], CalledFor(r, k - 1);
            && t.sent == s.sent + (if c.Some? && s.stats.Working? then [c.value] else [])
            && AllFrames(s) <= AllFrames(t)
            && |AllFrames(t)| == |AllFrames(s)| + (if c.Some? && !LosesAt(r, k - 1) then 1 else 0)
  {
    hide IsTrace, Turn, CalledFor, LosesAt, AllFrames;
    TurnAt(r, k);
    CalledNext(r, k);
  }

  /** Every reply answers what called for it: over any trace of a connection the writes
      issued are exactly the replies due, in order. */
  lemma {:induction false} RepliesAreDue(r: Trace, k: nat)
    requires IsTrace(r) && k < |r.states|
    ensures |r.states| == |r.envs| + 1 == |r.events| + 1 && r.states[k].sent == Due(r, k)
    decreases k
  {
    hide IsTrace, CalledFor, LosesAt, AllFrames;
    TraceStarts(r);
    if k > 0 {
      RepliesAreDue(r, k - 1);
      NextTurn(r, k);
    }
  }

  /** Every event before k that called for a reply found the connection not marked bad. */
  ghost predicate CalledInTime(r: Trace, k: nat)
    requires k < |r.states| == |r.envs| + 1 == |r.events| + 1
  {
    forall j :: 0 <= j < k && CalledFor(r, j).Some? ==> r.states[j].stats.Working?
  }

  /** How many events before k called for a reply. */
  ghost function Calls(r: Trace, k: nat): nat
    requires k < |r.states| == |r.envs| + 1 == |r.events| + 1
  {
    if k == 0 then 0 else Calls(r, k - 1) + if CalledFor(r, k - 1).Some? then 1 else 0
  }

  /** Served but not answered, exactly: as many replies have been written as were called for
      if and only if each was called for on a connection not marked bad, and otherwise fewer;
      and as many were called for as requests have been served if and only if the place in
      the stream has never been lost, and otherwise more. */
  lemma {:induction false} AllAnsweredIff(r: Trace, k: nat)
    requires IsTrace(r) && k < |r.states|
    ensures |r.states| == |r.envs| + 1 == |r.events| + 1
    ensures |r.states[k].sent| <= Calls(r, k) && (|r.states[k].sent| == Calls(r, k) <==> CalledInTime(r, k))
    ensures |AllFrames(r.states[k])| <= Calls(r, k) && (|AllFrames(r.states[k])| == Calls(r, k) <==> NeverLost(r, k))
    decreases k
  {
    hide IsTrace, AllFrames, Loses, Http, ReplyTo, ErrorReply;
    TraceStarts(r);
    if k > 0 {
      NextTurn(r, k);
      AllAnsweredIff(r, k - 1);
      CountsNext(r, k);
    }
  }

  // The conditions at k, from those at k - 1.
  lemma CountsNext(r: Trace, k: nat)
    requires 0 < k < |r.states| == |r.envs| + 1 == |r.events| + 1
    ensures CalledInTime(r, k)
       <==> CalledInTime(r, k - 1) && (CalledFor(r, k - 1).Some? ==> r.states[k - 1].stats.Working?)
    ensures NeverLost(r, k) <==> NeverLost(r, k - 1) && !LosesAt(r, k - 1)
    ensures LosesAt(r, k - 1) ==> CalledFor(r, k - 1).Some?
  {
    hide Loses, Http, ReplyTo, ErrorReply, ServedAt;
  }

  // Request i was served by an event before k, and its reply, if the connection was not
  // marked bad, is the write that this event made.
  ghost predicate AnsweredAt(r: Trace, k: nat, i: nat)
    requires k < |r.states| == |r.envs| + 1 == |r.events| + 1 && i < |AllFrames(r.states[k])|
  {
    exists j :: 0 <= j < k && ServedAt(r, j) && AnsweredBy(r, k, i, j)
  }

  ghost predicate AnsweredBy(r: Trace, k: nat, i: nat, j: nat)
    requires j < k < |r.states| == |r.envs| + 1 == |r.events| + 1 && i < |AllFrames(r.states[k])|
  {
    var m, sent := |r.states[j].sent|, r.states[k].sent;
    && |AllFrames(r.states[j])| == i && !LosesAt(r, j)
    && (r.states[j].stats.Working? ==>
          m < |sent| && sent[m] == ReplyTo(Http(), AllFrames(r.states[k])[i], r.envs[j]))
  }

  /** Each request gets its own reply, whatever has happened to the connection: 400 unless
      posted, 404 for other targets, else the analysis of its own body or a 500, written by
      the event that served it unless the connection was marked bad. */
  lemma {:induction false} EachRequestIsAnswered(r: Trace, k: nat, i: nat)
    requires IsTrace(r) && k < |r.states| && i < |AllFrames(r.states[k])|
    ensures |r.states| == |r.envs| + 1 == |r.events| + 1 && AnsweredAt(r, k, i)
    decreases k
  {
    hide IsTrace, AllFrames, AnsweredAt, CalledFor, LosesAt;
    TraceStarts(r);
    if k > 0 {
      NextTurn(r, k);
      if i < |AllFrames(r.states[k - 1])| {
        EachRequestIsAnswered(r, k - 1, i);
        AnsweredStays(r, k, i);
      } else {
        AnsweredNow(r, k, i);
      }
    }
  }

  lemma AnsweredStays(r: Trace, k: nat, i: nat)
    requires 0 < k < |r.states| == |r.envs| + 1 == |r.events| + 1 && i < |AllFrames(r.states[k - 1])|
    requires AnsweredAt(r, k - 1, i) && r.states[k - 1].sent <= r.states[k].sent
    requires AllFrames(r.states[k - 1]) <= AllFrames(r.states[k])
    ensures AnsweredAt(r, k, i)
  {
    hide ReplyTo, Http, Loses, AllFrames;
    var j :| 0 <= j < k - 1 && ServedAt(r, j) && AnsweredBy(r, k - 1, i, j);
    assert AllFrames(r.states[k])[i] == AllFrames(r.states[k - 1])[i];
    assert AnsweredBy(r, k, i, j);
  }

  lemma AnsweredNow(r: Trace, k: nat, i: nat)
    requires 0 < k < |r.states| == |r.envs| + 1 == |r.events| + 1
    requires |AllFrames(r.states[k - 1])| == i < |AllFrames(r.states[k])|
    requires var s, t, c := r.states[k - 1], r.states[k], CalledFor(r, k - 1);
             && t.sent == s.sent + (if c.Some? && s.stats.Working? then [c.value] else [])
             && AllFrames(s) <= AllFrames(t)
             && |AllFrames(t)| == |AllFrames(s)| + (if c.Some? && !LosesAt(r, k - 1) then 1 else 0)
    ensures AnsweredAt(r, k, i)
  {
    hide ReplyTo, Http, Loses, AllFrames, ErrorReply;
    assert ServedAt(r, k - 1);
    assert AnsweredBy(r, k, i, k - 1);
  }

  /** And when the place has never been lost and the connection was never marked bad in the
      wrong moment, the i-th write is the reply to the i-th request. */
  lemma InOrder(r: Trace, k: nat, i: nat)
    requires IsTrace(r) && k < |r.states| == |r.envs| + 1 == |r.events| + 1 && NeverLost(r, k) && CalledInTime(r, k)
    requires i < |AllFrames(r.states[k])|
    ensures |r.states[k].sent| == |AllFrames(r.states[k])|
    ensures exists j :: 0 <= j < k && ServedAt(r, j) && |AllFrames(r.states[j])| == i
                        && r.states[k].sent[i] == ReplyTo(Http(), AllFrames(r.states[k])[i], r.envs[j])
  {
    AllAnsweredIff(r, k);
    EachRequestIsAnswered(r, k, i);
    hide IsTrace, AllFrames, ReplyTo, Http, Loses, ErrorReply;
    var j :| 0 <= j < k && ServedAt(r, j) && AnsweredBy(r, k, i, j);
    AllAnsweredIff(r, j);
    assert CalledFor(r, j).Some? && r.states[j].stats.Working?;
    assert |r.states[j].sent| == i;
  }

  // ---- when that is so ----

  // Nothing has marked the connection bad: no eviction, no failed operation.
  predicate Harmless(e: Event) {
    match e
    case Evicted => false
    case ReadFails(ec) => ec.Aborted?
    case WriteEnds(ec, bytes) => ec.Aborted? || (ec.Success? && bytes > 0)
    case _ => true
  }

  ghost predicate Calm(r: Trace, k: nat)
    requires k <= |r.events|
  {
    forall j :: 0 <= j < k ==> Harmless(r.events[j])
  }

  // A connection that has not been marked bad works, or is done with reading.
  predicate Healthy(s: Session) { s.stats.Working? || s.reading == [] }

  lemma HealthyStep(s: Session, e: Event, env: Env, replies: iset<string>)
    requires Prints(env, replies) && Sound(s, replies) && Possible(s, e) && After(s, e, env).halt.Going?
    requires Healthy(s) && Harmless(e)
    ensures Healthy(After(s, e, env))
  {
    hide After, Sound, Prints;
    HandlersRefine(s, e, env, replies);
    if e.WriteEnds? { WritesLeave(s, e, env); }
  }

  lemma WritesLeave(s: Session, e: Event, env: Env)
    requires Possible(s, e) && (e.WriteEnds? || e.Evicted?)
    ensures var t := After(s, e, env);
            AllFrames(t) == AllFrames(s) && t.reading == s.reading && (Harmless(e) ==> t.stats == s.stats)
  {
  }

  lemma {:induction false} CalmIsHealthy(r: Trace, k: nat)
    requires IsTrace(r) && k < |r.states| && r.states[k].halt.Going? && Calm(r, k)
    ensures Healthy(r.states[k])
    decreases k
  {
    hide IsTrace, Possible, Healthy, Harmless, After, PrintsReplies;
    TraceStarts(r);
    if k > 0 {
      TraceStep(r, k);
      CalmIsHealthy(r, k - 1);
      HealthyNext(r, k);
    }
  }

  lemma HealthyNext(r: Trace, k: nat)
    requires IsTrace(r) && 0 < k < |r.states| && r.states[k].halt.Going? && k <= |r.events| && Harmless(r.events[k - 1])
    requires Healthy(r.states[k - 1])
    ensures Healthy(r.states[k])
  {
    hide IsTrace, Sound, Framed, Prints, PrintsReplies, Possible, Healthy, After, Harmless;
    TraceStep(r, k);
    TraceSound(r, k - 1);
    HealthyStep(r.states[k - 1], r.events[k - 1], r.envs[k - 1], AllReplies());
  }

  // A reply is called for by a read, of a connection that waits for one.
  lemma CalledByRead(r: Trace, j: nat)
    requires IsTrace(r) && j < |r.events| && |r.states| == |r.envs| + 1 == |r.events| + 1 && CalledFor(r, j).Some?
    ensures r.states[j].reading != [] && r.states[j].halt.Going?
  {
    hide IsTrace, After, PrintsReplies, ReplyTo, ErrorReply, Http, AllFrames;
    TraceStep(r, j + 1);
    var s, e := r.states[j], r.events[j];
    if e.WriteEnds? || e.Evicted? { WritesLeave(s, e, r.envs[j]); }
  }

  /** Every reply is called for in time unless an eviction or a failed operation has marked
      the connection. */
  lemma CalmCallsInTime(r: Trace, k: nat)
    requires IsTrace(r) && k < |r.states| == |r.envs| + 1 == |r.events| + 1 && Calm(r, k)
    ensures CalledInTime(r, k)
  {
    forall j | 0 <= j < k && CalledFor(r, j).Some? ensures r.states[j].stats.Working? {
      CalledByRead(r, j);
      CalmIsHealthy(r, j);
    }
  }
}
