/** The handlers take the steps of the protocol: what each event that ends a read or a write
    does to the stats, the outstanding operations, the touch time and the removal list. */
module Refinement {
  import opened Text
  import opened Headers
  import opened Replies
  import opened Lifecycle
  import opened ClientOps
  import opened Session
  import opened Framing
  import opened Streams
  import opened Requests
  import opened Chunking

  // ---- how an operation ends, read off the event ----

  /** A head asks for a body of which `extra` has come along. */
  ghost function HeadEnd(h: string, extra: string): ReadEnd {
    if !GoodHead(h) || !TakesBody(HeadOpts(h)) then Answered
    else if Length(HeadOpts(h)) == 0 && extra == "" then ReadFailed
    else if |extra| < Length(HeadOpts(h)) then NeedsBody
    else Answered
  }

  /** A read that fails without having been cancelled is reported, and so is a request whose
      body is announced to be empty; a read that leaves bytes of the body missing is followed
      by another; and everything else is answered. */
  ghost function EndOf(s: Session, e: Event): ReadEnd
    requires Possible(s, e)
  {
    match e
    case HeadArrives(data) =>
      var text := s.request + data;
      HeadEnd(text[..Find(text, BLANK_LINE) + 4], text[Find(text, BLANK_LINE) + 4..])
    case BodyArrives(chunk) => if s.rSize + |chunk| < Length(s.opts) then NeedsBody else Answered
    case ReadFails(ec) => if ec.Aborted? then Answered else ReadFailed
    case _ => Answered
  }

  /** A write that ends without success, or without a byte, is reported unless it has been
      cancelled. */
  predicate WriteFails(e: Event) {
    e.WriteEnds? && !e.wec.Aborted? && !(e.wec.Success? && e.bytes > 0)
  }

  /** The events that report a failure. */
  ghost predicate Fails(s: Session, e: Event)
    requires Possible(s, e)
  {
    WriteFails(e) || EndOf(s, e).ReadFailed?
  }

  // ---- the handlers ----

  // The handler ends in this way, and pushes exactly if it reports a failure.
  ghost predicate Finishes(s: Session, t: Session, end: ReadEnd, now: int) {
    && t.pushes == s.pushes + (if end.ReadFailed? then 1 else 0)
    && LifeOf(t) == FinishRead(LifeOf(s), end, now)
  }

  lemma AnswerFinishes(s: Session, content: string, line: string, env: Env, replies: iset<string>)
    requires s.halt.Going? && s.reading == [] && Prints(env, replies)
    ensures Finishes(s, Answer(Fill(s, content, line, env), env.now), Answered, env.now)
  {
    AnswerFilled(s, content, line, env, replies);
  }

  // Only what LifeOf and the pushes show matters.
  lemma FinishesSame(s: Session, u: Session, t: Session, end: ReadEnd, now: int)
    requires Finishes(u, t, end, now) && LifeOf(u) == LifeOf(s) && u.pushes == s.pushes
    ensures Finishes(s, t, end, now)
  {
  }

  lemma CompleteFinishes(r: Session, env: Env, replies: iset<string>)
    requires Prints(env, replies) && r.halt.Going? && r.reading == [] && r.rSize <= |r.buffer|
    ensures Finishes(r, Complete(r, env), Answered, env.now)
  {
    hide Answer, Fill, Prints, Finishes;
    var done := Served(r, r.buffer[..r.rSize]);
    if !UriIs(r.opts, ANALYSE) {
      AnswerFinishes(done, env.pages.notFound, NOT_FOUND, env, replies);
      FinishesSame(r, done, Complete(r, env), Answered, env.now);
    } else {
      var asked := done.(dispatched := done.dispatched + [r.buffer[..r.rSize]]);
      var (content, line) := Analysis(env, r.buffer[..r.rSize]);
      AnswerFinishes(asked, content, line, env, replies);
      FinishesSame(r, asked, Complete(r, env), Answered, env.now);
    }
  }

  // Some more bytes of a body.
  lemma BytesFinish(s: Session, bytes: nat, env: Env, replies: iset<string>)
    requires Prints(env, replies) && s.halt.Going? && s.reading == [] && bytes > 0
    requires s.rSize + bytes <= Length(s.opts) < |s.buffer|
    ensures Finishes(s, ReadBodyHandler(s, Success, bytes, env),
                     if s.rSize + bytes < Length(s.opts) then NeedsBody else Answered, env.now)
  {
    hide Complete, Answer, Fill, Prints;
    var r := s.(rSize := s.rSize + bytes);
    if r.rSize == Length(r.opts) { CompleteFinishes(r, env, replies); }
  }

  lemma FailureFinishes(s: Session, ec: Ec, env: Env, replies: iset<string>)
    requires Prints(env, replies) && Possible(s, ReadFails(ec))
    ensures Finishes(s.(reading := []), After(s, ReadFails(ec), env), if ec.Aborted? then Answered else ReadFailed, env.now)
  {
    hide Answer, Fill, Prints;
    var u := s.(reading := []);
    if ec.Aborted? {
      AnswerFinishes(Dropped(u), env.pages.error, SERVER_ERROR, env, replies);
      AnswerFinishes(Unplaced(u), env.pages.error, SERVER_ERROR, env, replies);
    }
  }

  // What a head that wants a body makes of the connection, in terms of its own options.
  ghost function BodyEnd(s: Session): ReadEnd {
    if Length(s.opts) == 0 && s.request == "" then ReadFailed
    else if |s.request| < Length(s.opts) then NeedsBody
    else Answered
  }

  lemma TakeBodyFinishes(s: Session, env: Env, replies: iset<string>)
    requires Prints(env, replies) && s.halt.Going? && s.reading == []
    ensures if 0 <= |s.request| <= Length(s.opts) then Finishes(s, TakeBody(s, env), BodyEnd(s), env.now)
            else TakeBody(s, env).pushes == s.pushes && !TakeBody(s, env).halt.Going?
  {
    hide Complete, Stored, Prints, Answer, Fill, Length;
    if 0 < |s.request| == Length(s.opts) { BytesFinish(Moved(s), |s.request|, env, replies); }
  }

  ghost function RouteEnd(s: Session): ReadEnd {
    if TakesBody(s.opts) then BodyEnd(s) else Answered
  }

  lemma RouteFinishes(s: Session, env: Env, replies: iset<string>)
    requires Prints(env, replies) && Resting(s, replies)
    ensures if Route(s, env).halt.Going? then Finishes(s, Route(s, env), RouteEnd(s), env.now)
            else Route(s, env).pushes == s.pushes && !RouteEnd(s).ReadFailed?
  {
    SoundRoute(s, env, replies);
    hide TakeBody, Prints, Answer, Fill, Finishes, Sound, Resting;
    AnswerFinishes(Served(s, ""), env.pages.badRequest, BAD_REQUEST, env, replies);
    AnswerFinishes(Served(s, ""), env.pages.notFound, NOT_FOUND, env, replies);
    if !TakesBody(s.opts) {
      var f := Served(s, "");
      FinishesSame(s, f, Answer(Fill(f, env.pages.badRequest, BAD_REQUEST, env), env.now), Answered, env.now);
      FinishesSame(s, f, Answer(Fill(f, env.pages.notFound, NOT_FOUND, env), env.now), Answered, env.now);
    } else {
      TakeBodyFinishes(s, env, replies);
    }
  }

  lemma HeadFinishes(s: Session, data: string, h: string, extra: string, env: Env, replies: iset<string>)
    requires Prints(env, replies) && Sound(s, replies) && Possible(s, HeadArrives(data)) && s.request + data == h + extra
    requires h == (s.request + data)[..Find(s.request + data, BLANK_LINE) + 4]
    ensures var t := After(s, HeadArrives(data), env);
            if t.halt.Going? then Finishes(s.(reading := []), t, HeadEnd(h, extra), env.now)
            else t.pushes == s.pushes && !HeadEnd(h, extra).ReadFailed?
  {
    hide Route, Prints, Answer, Fill, Fields, Parsed, CStr, NulFree, HeadOpts, Length, TakesBody, Finishes, RouteEnd, SameRequest;
    var text := h + extra;
    var c := s.(reading := [], received := s.received + data, request := extra, head := h);
    ParsesIff(text, h);
    Cut(h, extra);
    if Fields(CStr(text)).None? {
      AnswerFinishes(Dropped(c), env.pages.error, SERVER_ERROR, env, replies);
      FinishesSame(s.(reading := []), Dropped(c), After(s, HeadArrives(data), env), Answered, env.now);
      AnswersGoOn(Dropped(c), env.pages.error, SERVER_ERROR, env, replies);
    } else {
      OptsOfHead(text, h);
      var u := c.(opts := Parsed(Fields(CStr(text)).value));
      assert Resting(u, replies);
      RouteFinishes(u, env, replies);
      SameEnd(u, h, extra);
      hide Sound, Resting, Possible;
      assert After(s, HeadArrives(data), env) == Route(u, env);
      if Route(u, env).halt.Going? { FinishesSame(s.(reading := []), u, Route(u, env), RouteEnd(u), env.now); }
    }
  }

  lemma AnswersGoOn(s: Session, content: string, line: string, env: Env, replies: iset<string>)
    requires s.halt.Going? && s.reading == [] && Prints(env, replies)
    ensures Answer(Fill(s, content, line, env), env.now).halt.Going?
  {
    AnswerFilled(s, content, line, env, replies);
  }

  lemma SameEnd(u: Session, h: string, extra: string)
    requires GoodHead(h) && SameRequest(u.opts, HeadOpts(h)) && u.request == extra
    ensures RouteEnd(u) == HeadEnd(h, extra)
  {
    hide HeadOpts, Length, TakesBody, GoodHead;
  }

  // ---- events ----

  lemma BodyEventFinishes(s: Session, chunk: string, env: Env, replies: iset<string>)
    requires Prints(env, replies) && Sound(s, replies) && Possible(s, BodyArrives(chunk))
    ensures Finishes(s.(reading := []), After(s, BodyArrives(chunk), env), EndOf(s, BodyArrives(chunk)), env.now)
  {
    hide ReadBodyHandler, Prints, Finishes;
    var over := Overwrite(s.buffer, s.reading[0].at, chunk);
    var u := s.(reading := [], buffer := over, received := s.received + chunk);
    BytesFinish(u, |chunk|, env, replies);
    FinishesSame(s.(reading := []), u, After(s, BodyArrives(chunk), env), EndOf(s, BodyArrives(chunk)), env.now);
  }

  /** The handlers refine the protocol: each event that ends a read does to the stats, the
      outstanding operations and the touch time what a read step of the lifecycle does that
      ends as the event says, each that ends a write what a write step does; and no write is
      ever continued, since the cursors rest. */
  lemma HandlersRefine(s: Session, e: Event, env: Env, replies: iset<string>)
    requires Prints(env, replies) && Sound(s, replies) && Possible(s, e) && After(s, e, env).halt.Going?
    ensures var t := After(s, e, env);
            match e
            case WriteEnds(_, _) =>
              s.writing >= 1 && LifeOf(t) == AfterWrite(LifeOf(s), if WriteFails(e) then WriteFailed else Written, env.now)
            case Evicted => LifeOf(t) == LifeOf(s).(stats := Error)
            case _ => |s.reading| == 1 && LifeOf(t) == AfterRead(LifeOf(s), EndOf(s, e), env.now)
  {
    if !e.WriteEnds? && !e.Evicted? { ReadFinishes(s, e, env, replies); }
  }

  lemma ReadFinishes(s: Session, e: Event, env: Env, replies: iset<string>)
    requires Prints(env, replies) && Sound(s, replies) && Possible(s, e) && !e.WriteEnds? && !e.Evicted?
    ensures |s.reading| == 1
    ensures var t := After(s, e, env);
            if t.halt.Going? then Finishes(s.(reading := []), t, EndOf(s, e), env.now)
            else t.pushes == s.pushes && !EndOf(s, e).ReadFailed?
  {
    assert |s.reading| == 1;
    hide After, Finishes, Prints, HeadEnd, Sound;
    match e
    case HeadArrives(data) =>
      var text := s.request + data;
      var n := Find(text, BLANK_LINE) + 4;
      CutOff(text, n);
      HeadFinishes(s, data, text[..n], text[n..], env, replies);
    case BodyArrives(chunk) =>
      SoundBodyEvent(s, chunk, env, replies);
      BodyEventFinishes(s, chunk, env, replies);
    case ReadFails(ec) =>
      SoundFailure(s, ec, env, replies);
      FailureFinishes(s, ec, env, replies);
  }

  /** push_to_remove is called by exactly the events that report a failure, once by each,
      and each marks the connection bad. */
  lemma PushesExactly(s: Session, e: Event, env: Env, replies: iset<string>)
    requires Prints(env, replies) && Sound(s, replies) && Possible(s, e)
    ensures var t := After(s, e, env);
            t.pushes == s.pushes + (if Fails(s, e) then 1 else 0) && (Fails(s, e) ==> t.stats.Error?)
  {
    if e.WriteEnds? || e.Evicted? {
      hide Sound;
    } else {
      ReadFinishes(s, e, env, replies);
      hide After, Sound, HeadEnd;
    }
  }

  // ---- traces ----

  /** How many events before k have reported a failure. */
  ghost function Failures(r: Trace, k: nat): nat
    requires IsTrace(r) && k < |r.states|
  {
    if k == 0 then 0 else
    assert Possible(r.states[k - 1], r.events[k - 1]);
    Failures(r, k - 1) + if Fails(r.states[k - 1], r.events[k - 1]) then 1 else 0
  }

  /** Over any trace, push_to_remove has been called once for each failure. */
  lemma {:induction false} PushesCounted(r: Trace, k: nat)
    requires IsTrace(r) && k < |r.states|
    ensures r.states[k].pushes == r.states[0].pushes + Failures(r, k)
    decreases k
  {
    if k > 0 {
      PushesCounted(r, k - 1);
      PushesAt(r, k);
      hide IsTrace, Possible, Fails;
    }
  }

  lemma PushesAt(r: Trace, k: nat)
    requires IsTrace(r) && 0 < k < |r.states|
    ensures Possible(r.states[k - 1], r.events[k - 1])
    ensures r.states[k].pushes == r.states[k - 1].pushes + if Fails(r.states[k - 1], r.events[k - 1]) then 1 else 0
  {
    hide After, Sound, Framed, PrintsReplies, Fresh, Fails, Prints;
    assert Possible(r.states[k - 1], r.events[k - 1]);
    assert r.states[k] == After(r.states[k - 1], r.events[k - 1], r.envs[k - 1]);
    TraceSound(r, k - 1);
    PushesExactly(r.states[k - 1], r.events[k - 1], r.envs[k - 1], AllReplies());
  }
}
