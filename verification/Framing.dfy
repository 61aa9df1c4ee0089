/** What every event of a connection keeps: the write cursor at rest, at most one read and
    that inside its buffer, and every write one whole reply. */
module Framing {
  import opened Text
  import opened Headers
  import opened Replies
  import opened Lifecycle
  import opened ClientOps
  import opened Session

  // ---- one answered request ----

  /** What is printed is never empty and belongs to `replies`. */
  ghost predicate Prints(env: Env, replies: iset<string>) {
    "" !in replies && forall c, l :: env.printer(c, l) in replies
  }

  /** Filling and sending a reply: unless the connection is marked bad exactly the reply
      is written; then the cursors rest and the next head is being read. */
  lemma AnswerFilled(s: Session, content: string, line: string, env: Env, replies: iset<string>)
    requires s.halt.Going? && s.reading == [] && Prints(env, replies)
    ensures var f := Fill(s, content, line, env); var t := Answer(f, env.now);
            t == s.(stats := Working, reading := [HeadRead], touch := env.now, rSize := 0, wSize := 0, wPos := 0,
                    write := f.write, writing := s.writing + (if s.stats.Working? then 1 else 0),
                    sent := s.sent + (if s.stats.Working? then [env.printer(content, line)] else []))
    ensures |env.printer(content, line)| <= |Fill(s, content, line, env).write|
  {
    var enc := env.printer(content, line);
    var f := Fill(s, content, line, env);
    assert f.write[..|enc| + 1] == f.write[..0] + (enc + "\0");
    assert f.write[0..|enc|] == f.write[..|enc| + 1][..|enc|] == enc;
    assert |enc| > 0;
  }

  // ---- the invariant of the buffers and cursors ----

  ghost predicate Sound(s: Session, replies: iset<string>) {
    && s.wSize == 0 && s.wPos == 0 && !s.stats.Pending?
    && |s.reading| <= 1 && (s.stats.Working? ==> |s.reading| == 1)
    && (|s.reading| == 1 && s.reading[0].BodyRead? ==>
          var at, size := s.reading[0].at, s.reading[0].size;
          && size > 0 && at + size == Length(s.opts) && at + size < |s.buffer| && s.request == ""
          && (s.rSize == at || (s.rSize == 0 && s.stats.Error?)))
    && (forall i :: 0 <= i < |s.sent| ==> s.sent[i] in replies)
  }

  lemma SoundAnswer(s: Session, content: string, line: string, env: Env, replies: iset<string>)
    requires s.halt.Going? && s.reading == [] && Prints(env, replies)
    requires forall i :: 0 <= i < |s.sent| ==> s.sent[i] in replies
    ensures var t := Answer(Fill(s, content, line, env), env.now); Sound(t, replies) && t.halt.Going?
  {
    AnswerFilled(s, content, line, env, replies);
  }

  // What a handler starts from: its read is over, the cursors rest.
  ghost predicate Resting(s: Session, replies: iset<string>) {
    && s.halt.Going? && s.reading == [] && s.wSize == 0 && s.wPos == 0 && !s.stats.Pending?
    && (forall i :: 0 <= i < |s.sent| ==> s.sent[i] in replies)
  }

  lemma SoundComplete(r: Session, env: Env, replies: iset<string>)
    requires Resting(r, replies) && Prints(env, replies) && r.rSize <= |r.buffer|
    ensures var t := Complete(r, env); t.halt.Going? && Sound(t, replies)
  {
    var done := Served(r, r.buffer[..r.rSize]);
    var asked := done.(dispatched := done.dispatched + [r.buffer[..r.rSize]]);
    SoundAnswer(done, env.pages.notFound, NOT_FOUND, env, replies);
    var (content, line) := Analysis(env, r.buffer[..r.rSize]);
    SoundAnswer(asked, content, line, env, replies);
  }

  lemma SoundMore(r: Session, now: int, replies: iset<string>)
    requires Resting(r, replies) && r.request == "" && r.rSize < Length(r.opts) < |r.buffer|
    ensures var t := DoReadBody(r, now); t.halt.Going? && Sound(t, replies)
  {
  }

  lemma SoundBody(s: Session, ec: Ec, bytes: nat, env: Env, replies: iset<string>)
    requires Resting(s, replies) && Prints(env, replies) && s.request == ""
    requires Length(s.opts) < |s.buffer| && s.rSize + bytes <= Length(s.opts)
    ensures var t := ReadBodyHandler(s, ec, bytes, env); t.halt.Going? && Sound(t, replies)
  {
    hide Complete, DoReadBody, Answer, Fill, NotifyError, Sound, Prints;
    if ec.Success? && bytes > 0 {
      var r := s.(rSize := s.rSize + bytes);
      if r.rSize < Length(r.opts) { SoundMore(r, env.now, replies); } else { SoundComplete(r, env, replies); }
    } else if ec.Aborted? {
      SoundAnswer(Unplaced(s), env.pages.error, SERVER_ERROR, env, replies);
    } else {
      SoundNotify(s, replies);
    }
  }

  lemma SoundNotify(s: Session, replies: iset<string>)
    requires Resting(s, replies)
    ensures NotifyError(s).halt.Going? && Sound(NotifyError(s), replies)
  {
  }

  /** read_head_handler with a head that wants a body: it stops at a negative length or
      at more bytes than the body has, and nowhere else. */
  lemma SoundTakeBody(s: Session, env: Env, replies: iset<string>)
    requires Resting(s, replies) && Prints(env, replies)
    ensures var t, len := TakeBody(s, env), Length(s.opts);
            && t.halt == (if len < 0 then NegativeLength else if |s.request| > len then TooManyBytes else Going)
            && (t.halt.Going? ==> Sound(t, replies))
  {
    hide ReadBodyHandler, Stored, Prints;
    if |s.request| == Length(s.opts) { SoundBody(Moved(s), Success, |s.request|, env, replies); }
  }

  ghost function RouteHalt(opts: Options, extra: string): Halt {
    if !TakesBody(opts) then Going
    else if Length(opts) < 0 then NegativeLength
    else if |extra| > Length(opts) then TooManyBytes
    else Going
  }

  /** What the bytes of a read, a head and what came along with it, make of a connection. */
  ghost function HeadHalt(text: string): Halt
    requires Find(text, BLANK_LINE) >= 0
  {
    if Fields(CStr(text)).None? then Going
    else RouteHalt(Parsed(Fields(CStr(text)).value), text[Find(text, BLANK_LINE) + 4..])
  }

  lemma SoundRoute(s: Session, env: Env, replies: iset<string>)
    requires Resting(s, replies) && Prints(env, replies)
    ensures var t := Route(s, env);
            (t.halt.Going? ==> Sound(t, replies)) && t.halt == RouteHalt(s.opts, s.request)
  {
    if !IsPost(s.opts) {
      SoundAnswer(Served(s, ""), env.pages.badRequest, BAD_REQUEST, env, replies);
    } else if !TakesBody(s.opts) {
      SoundAnswer(Served(s, ""), env.pages.notFound, NOT_FOUND, env, replies);
    } else {
      SoundTakeBody(s, env, replies);
    }
  }

  lemma SoundHead(s: Session, ec: Ec, bytes: nat, env: Env, replies: iset<string>)
    requires Resting(s, replies) && Prints(env, replies) && bytes <= |s.request|
    ensures var t := ReadHeadHandler(s, ec, bytes, env);
            && (t.halt.Going? ==> Sound(t, replies))
            && t.halt == (if ec.Success? && bytes > 0 && Fields(CStr(s.request)).Some?
                          then RouteHalt(Parsed(Fields(CStr(s.request)).value), s.request[bytes..]) else Going)
  {
    if ec.Success? && bytes > 0 {
      var text := CStr(s.request);
      var c := s.(request := s.request[bytes..], head := s.request[..bytes]);
      if Fields(text).None? {
        SoundAnswer(Dropped(c), env.pages.error, SERVER_ERROR, env, replies);
      } else {
        SoundRoute(c.(opts := Parsed(Fields(text).value)), env, replies);
      }
    } else if ec.Aborted? {
      SoundAnswer(Dropped(s), env.pages.error, SERVER_ERROR, env, replies);
    }
  }

  /** One event: the assertions of do_write never fail, no buffer is left, and while the
      connection goes on the cursors are at rest, at most one read is outstanding, and
      exactly one while it works. */
  lemma SoundStep(s: Session, e: Event, env: Env, replies: iset<string>)
    requires Sound(s, replies) && Prints(env, replies) && Possible(s, e)
    ensures var t := After(s, e, env);
            (t.halt.Going? ==> Sound(t, replies))
            && t.halt == if e.HeadArrives? then HeadHalt(s.request + e.data) else Going
  {
    hide ReadHeadHandler, ReadBodyHandler;
    match e
    case HeadArrives(data) => SoundHeadEvent(s, data, s.request + data, env, replies);
    case BodyArrives(chunk) => SoundBodyEvent(s, chunk, env, replies);
    case ReadFails(ec) => SoundFailure(s, ec, env, replies);
    case WriteEnds(ec, bytes) =>
    case Evicted =>
  }

  lemma SoundHeadEvent(s: Session, data: string, text: string, env: Env, replies: iset<string>)
    requires Sound(s, replies) && Prints(env, replies) && Possible(s, HeadArrives(data)) && text == s.request + data
    ensures var t := After(s, HeadArrives(data), env);
            (t.halt.Going? ==> Sound(t, replies)) && t.halt == HeadHalt(text)
  {
    hide ReadHeadHandler, Fields, Parsed, RouteHalt;
    var n := Find(text, BLANK_LINE) + 4;
    SoundHead(s.(reading := [], request := text, received := s.received + data), Success, n, env, replies);
  }

  lemma SoundBodyEvent(s: Session, chunk: string, env: Env, replies: iset<string>)
    requires Sound(s, replies) && Prints(env, replies) && Possible(s, BodyArrives(chunk))
    ensures var t := After(s, BodyArrives(chunk), env); t.halt.Going? && Sound(t, replies)
  {
    var over := Overwrite(s.buffer, s.reading[0].at, chunk);
    SoundBody(s.(reading := [], buffer := over, received := s.received + chunk), Success, |chunk|, env, replies);
  }

  lemma SoundFailure(s: Session, ec: Ec, env: Env, replies: iset<string>)
    requires Sound(s, replies) && Prints(env, replies) && Possible(s, ReadFails(ec))
    ensures var t := After(s, ReadFails(ec), env); t.halt.Going? && Sound(t, replies)
  {
    var u := s.(reading := []);
    if s.reading[0].HeadRead? { SoundHead(u, ec, 0, env, replies); } else { SoundBody(u, ec, 0, env, replies); }
  }
}
