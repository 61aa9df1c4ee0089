/** The requests served are those of the byte stream, over any run of events and however
    the stream is cut into reads. */
module Chunking {
  import opened Text
  import opened Headers
  import opened Replies
  import opened ClientOps
  import opened Session
  import opened Framing
  import opened Streams
  import opened Requests

  // A head that is a request by itself, refused at once.
  lemma FramedRefusal(g: Grammar, s: Session, content: string, line: string, env: Env, replies: iset<string>)
    requires Prints(env, replies) && s.halt.Going? && s.reading == [] && History(g, s)
    requires g.ok(Frame(s.head, "")) && !g.analysed(Frame(s.head, ""))
    requires s.received == Flatten(s.frames) + (s.head + s.request)
    ensures Framed(g, Answer(Fill(Served(s, ""), content, line, env), env.now))
  {
    hide Answer, Fill, Flatten, Bodies, Prints, Framed;
    ServedKeeps(g, s, Frame(s.head, ""));
    assert s.received == Flatten(s.frames) + (s.head + "") + s.request;
    FramedAnswer(g, Served(s, ""), content, line, env, replies);
  }

  lemma FramedRoute(g: Grammar, s: Session, env: Env, replies: iset<string>)
    requires Prints(env, replies) && s.halt.Going? && s.reading == []
    requires History(g, s) && HeadMeans(g, s.head, s.opts)
    requires s.received == Flatten(s.frames) + (s.head + s.request)
    ensures var t := Route(s, env); t.halt.Going? ==> Framed(g, t)
  {
    if !TakesBody(s.opts) {
      FramedRefusal(g, s, env.pages.badRequest, BAD_REQUEST, env, replies);
      FramedRefusal(g, s, env.pages.notFound, NOT_FOUND, env, replies);
    } else if 0 <= Length(s.opts) && |s.request| <= Length(s.opts) {
      FramedTakeBody(g, s, env, replies);
    }
  }

  /** read_head_handler consumes the next head of the stream. */
  lemma FramedHead(g: Grammar, s: Session, n: nat, env: Env, replies: iset<string>)
    requires Prints(env, replies) && s.halt.Going? && s.reading == [] && History(g, s)
    requires s.received == Flatten(s.frames) + s.request && 0 < n <= |s.request|
    requires Fields(CStr(s.request)).Some? ==> HeadMeans(g, s.request[..n], Parsed(Fields(CStr(s.request)).value))
    ensures var t := ReadHeadHandler(s, Success, n, env); t.halt.Going? ==> Framed(g, t)
  {
    var h, rest := s.request[..n], s.request[n..];
    assert s.request == h + rest;
    if Fields(CStr(s.request)).None? {
      UnplacedKeeps(g, s);
      FramedAnswer(g, Dropped(s.(request := rest, head := h)), env.pages.error, SERVER_ERROR, env, replies);
    } else {
      FramedRoute(g, s.(request := rest, head := h, opts := Parsed(Fields(CStr(s.request)).value)), env, replies);
    }
  }

  lemma FramedHeadEvent(g: Grammar, s: Session, data: string, env: Env, replies: iset<string>)
    requires Prints(env, replies) && Agrees(g) && Framed(g, s) && Possible(s, HeadArrives(data))
    ensures var t := After(s, HeadArrives(data), env); t.halt.Going? ==> Framed(g, t)
  {
    var text := s.request + data;
    var u := s.(reading := [], request := text, received := s.received + data);
    var n := Find(text, BLANK_LINE) + 4;
    assert After(s, HeadArrives(data), env) == ReadHeadHandler(u, Success, n, env);
    Resumed(g, s, data);
    PlacedHead(g, u, n, env, replies);
  }

  lemma Resumed(g: Grammar, s: Session, data: string)
    requires Framed(g, s) && s.reading == [HeadRead]
    ensures History(g, s) && s.received + data == Flatten(s.frames) + (s.request + data)
  {
    assert PlaceOf(s) == AtHead;
  }

  lemma PlacedHead(g: Grammar, u: Session, n: nat, env: Env, replies: iset<string>)
    requires Prints(env, replies) && Agrees(g) && u.halt.Going? && u.reading == [] && History(g, u)
    requires u.received == Flatten(u.frames) + u.request
    requires Find(u.request, BLANK_LINE) >= 0 && n == Find(u.request, BLANK_LINE) + 4
    ensures var t := ReadHeadHandler(u, Success, n, env); t.halt.Going? ==> Framed(g, t)
  {
    assert MeansHead(g, u.request, n);
    FramedHead(g, u, n, env, replies);
  }

  lemma FramedBodyEvent(g: Grammar, s: Session, chunk: string, env: Env, replies: iset<string>)
    requires Prints(env, replies) && Sound(s, replies) && Framed(g, s) && Possible(s, BodyArrives(chunk))
    ensures Framed(g, After(s, BodyArrives(chunk), env))
  {
    var at := s.reading[0].at;
    var over := Overwrite(s.buffer, at, chunk);
    var u := s.(reading := [], buffer := over, received := s.received + chunk);
    assert PlaceOf(s) == AtBody(at);
    assert over[..at + |chunk|] == s.buffer[..at] + chunk;
    assert u.received == Flatten(s.frames) + (s.head + over[..at + |chunk|]);
    FramedBody(g, u, |chunk|, at + |chunk|, env, replies);
  }

  lemma FramedOther(g: Grammar, s: Session, e: Event, env: Env, replies: iset<string>)
    requires Prints(env, replies) && Sound(s, replies) && Framed(g, s)
    requires Possible(s, e) && (e.ReadFails? || e.WriteEnds? || e.Evicted?)
    ensures Framed(g, After(s, e, env))
  {
    if e.ReadFails? { FramedFailure(g, s, e.ec, env, replies); }
  }

  lemma FramedFailure(g: Grammar, s: Session, ec: Ec, env: Env, replies: iset<string>)
    requires Prints(env, replies) && Sound(s, replies) && Framed(g, s) && Possible(s, ReadFails(ec))
    ensures Framed(g, After(s, ReadFails(ec), env))
  {
    var u := s.(reading := []);
    assert s.reading[0].BodyRead? ==> s.request == "";
    assert History(g, s) && Flatten(s.frames) <= s.received;
    hide Answer, Fill, Prints, Sound;
    if ec.Aborted? {
      UnplacedKeeps(g, u);
      FramedAnswer(g, Dropped(u), env.pages.error, SERVER_ERROR, env, replies);
      if u.request == "" { FramedAnswer(g, Unplaced(u), env.pages.error, SERVER_ERROR, env, replies); }
    }
  }

  /** Every event keeps a connection at its place in the stream. */
  lemma FramedStep(g: Grammar, s: Session, e: Event, env: Env, replies: iset<string>)
    requires Prints(env, replies) && Agrees(g) && Sound(s, replies) && Framed(g, s) && Possible(s, e)
    ensures var t := After(s, e, env); t.halt.Going? ==> Framed(g, t)
  {
    match e
    case HeadArrives(data) => FramedHeadEvent(g, s, data, env, replies);
    case BodyArrives(chunk) => FramedBodyEvent(g, s, chunk, env, replies);
    case _ => FramedOther(g, s, e, env, replies);
  }

  // ---- runs ----

  ghost predicate IsReply(w: string) {
    exists content, line, date :: w == Reply(content, line, date)
  }

  ghost function AllReplies(): iset<string> {
    iset w: string | IsReply(w)
  }

  ghost predicate PrintsReplies(env: Env) {
    exists date :: env.printer == Printer(date)
  }

  lemma RepliesPrinted(env: Env)
    requires PrintsReplies(env)
    ensures Prints(env, AllReplies())
  {
    var date :| env.printer == Printer(date);
    forall c, l ensures IsReply(env.printer(c, l)) { assert env.printer(c, l) == Reply(c, l, date); }
    assert forall c, l, d :: |Reply(c, l, d)| >= 2;
  }

  /** states[k + 1] is states[k] after events[k]. */
  datatype Trace = Trace(states: seq<Session>, events: seq<Event>, envs: seq<Env>)

  ghost predicate IsTrace(r: Trace) {
    && |r.states| == |r.events| + 1 && |r.envs| == |r.events| && Fresh(r.states[0])
    && forall k :: 0 <= k < |r.events| ==>
         PrintsReplies(r.envs[k]) && Possible(r.states[k], r.events[k])
         && r.states[k + 1] == After(r.states[k], r.events[k], r.envs[k])
  }

  function LastOf(r: Trace): Session
    requires |r.states| > 0
  {
    r.states[|r.states| - 1]
  }

  /** The trace that goes on with one more event. */
  ghost function Extended(r: Trace, e: Event, env: Env): Trace
    requires |r.states| > 0 && Possible(LastOf(r), e)
  {
    r.(states := r.states + [After(LastOf(r), e, env)], events := r.events + [e], envs := r.envs + [env])
  }

  lemma ExtendedIsTrace(r: Trace, e: Event, env: Env)
    requires IsTrace(r) && Possible(LastOf(r), e) && PrintsReplies(env)
    ensures IsTrace(Extended(r, e, env)) && LastOf(Extended(r, e, env)) == After(LastOf(r), e, env)
  {
    hide After, PrintsReplies, Possible, Fresh;
  }

  lemma {:induction false} TraceOk(g: Grammar, replies: iset<string>, r: Trace, k: nat)
    requires Agrees(g) && IsTrace(r) && k < |r.states| && r.states[k].halt.Going?
    requires forall j :: 0 <= j < |r.envs| ==> Prints(r.envs[j], replies)
    ensures Sound(r.states[k], replies) && Framed(g, r.states[k])
    decreases k
  {
    if k > 0 {
      var s, e, env := r.states[k - 1], r.events[k - 1], r.envs[k - 1];
      assert Possible(s, e);
      TraceOk(g, replies, r, k - 1);
      SoundStep(s, e, env, replies);
      FramedStep(g, s, e, env, replies);
    }
  }

  // The invariants in terms of the program's replies and requests.
  lemma TraceSound(r: Trace, k: nat)
    requires IsTrace(r) && k < |r.states| && r.states[k].halt.Going?
    ensures Sound(r.states[k], AllReplies()) && Framed(Http(), r.states[k])
    ensures forall j :: 0 <= j < |r.envs| ==> Prints(r.envs[j], AllReplies())
  {
    forall j | 0 <= j < |r.envs| ensures Prints(r.envs[j], AllReplies()) {
      assert Possible(r.states[j], r.events[j]);
      RepliesPrinted(r.envs[j]);
    }
    HttpAgrees();
    TraceOk(Http(), AllReplies(), r, k);
  }

  /** Over any trace of a connection, at every handler boundary: the write cursors are at
      rest, at most one read is outstanding and exactly one while it works, a body read
      stays inside its buffer, and every write issued is exactly one reply. */
  lemma CursorsRest(r: Trace, k: nat)
    requires IsTrace(r) && k < |r.states| && r.states[k].halt.Going?
    ensures var s := r.states[k];
            && s.wSize == s.wPos == 0
            && |s.reading| <= 1 && (s.stats.Working? ==> |s.reading| == 1)
            && (forall i :: 0 <= i < |s.sent| ==> IsReply(s.sent[i]))
            && (|s.reading| == 1 && s.reading[0].BodyRead? ==> s.reading[0].at + s.reading[0].size < |s.buffer|)
  {
    TraceSound(r, k);
  }

  /** The assertions of do_write never fail, and no access leaves a buffer. The assertion
      of read_head_handler fails exactly when a request for one of the three targets came
      with more bytes behind its head than its Content-Length announces; with a negative
      Content-Length the model stops, and says nothing of what the program does then. */
  lemma HaltsExactly(r: Trace, k: nat)
    requires IsTrace(r) && k < |r.events|
    ensures r.states[k + 1].halt
         == if r.events[k].HeadArrives? then HeadHalt(r.states[k].request + r.events[k].data) else Going
  {
    assert Possible(r.states[k], r.events[k]);
    TraceSound(r, k);
    SoundStep(r.states[k], r.events[k], r.envs[k], AllReplies());
  }

  /** Body assembly, over every trace: all requests served are well formed, the bodies passed
      to analyse_handler are, in order, theirs, and the bytes received since the place in the
      stream was last lost begin with the requests served since then. */
  lemma DispatchesTheStream(r: Trace, k: nat)
    requires IsTrace(r) && k < |r.states| && r.states[k].halt.Going?
    ensures var s := r.states[k];
            && AllOk(Http(), AllFrames(s)) && s.dispatched == Bodies(Http(), AllFrames(s))
            && Flatten(s.frames) <= s.received
            && (s.reading == [HeadRead] ==> s.received == Flatten(s.frames) + s.request)
  {
    TraceSound(r, k);
    StreamOk(Http(), r.states[k]);
  }

  lemma StreamOk(g: Grammar, s: Session)
    requires Framed(g, s)
    ensures AllOk(g, AllFrames(s)) && s.dispatched == Bodies(g, AllFrames(s)) && Flatten(s.frames) <= s.received
    ensures AllOk(g, s.frames)
    ensures s.reading == [HeadRead] ==> s.received == Flatten(s.frames) + s.request
  {
    assert Flatten(s.frames) <= s.received;
    assert s.frames == AllFrames(s)[|s.before.frames|..];
  }

  /** Chunking does not matter: two connections that have received bytes of the same stream,
      each since it last lost its place, in whatever pieces and with whatever writes and
      evictions in between, have served the same requests of it: the i-th of one is the i-th
      of the other. */
  lemma ChunkingIndependent(r: Trace, k: nat, q: Trace, m: nat, stream: string, i: nat)
    requires IsTrace(r) && k < |r.states| && r.states[k].halt.Going?
    requires IsTrace(q) && m < |q.states| && q.states[m].halt.Going?
    requires r.states[k].received <= stream && q.states[m].received <= stream
    requires i < |r.states[k].frames| && i < |q.states[m].frames|
    ensures r.states[k].frames[i] == q.states[m].frames[i]
  {
    TraceSound(r, k);
    TraceSound(q, m);
    StreamOk(Http(), r.states[k]);
    StreamOk(Http(), q.states[m]);
    HttpIsPrefixCode();
    PrefixesAgree(Http(), r.states[k].frames, q.states[m].frames, stream, i);
  }

  lemma PrefixesAgree(g: Grammar, fs: seq<Frame>, gs: seq<Frame>, stream: string, i: nat)
    requires PrefixCode(g) && AllOk(g, fs) && AllOk(g, gs) && Flatten(fs) <= stream && Flatten(gs) <= stream
    requires i < |fs| && i < |gs|
    ensures fs[i] == gs[i]
  {
    var p, q := stream[|Flatten(fs)|..], stream[|Flatten(gs)|..];
    assert stream == Flatten(fs) + p && stream == Flatten(gs) + q;
    FramingUnique(g, fs, gs, p, q, i);
  }
}
