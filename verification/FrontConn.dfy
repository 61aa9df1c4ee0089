/** front_conn as an object. Its methods do to the fields what the functions of Session say,
    and the object carries the history of its present client as a trace: so whatever is
    proved of traces holds of it. */
module FrontConn {
  import opened Text
  import opened Headers
  import opened Replies
  import opened Lifecycle
  import opened ClientOps
  import opened Session
  import opened Framing
  import opened Streams
  import opened Requests
  import opened Refinement
  import opened Responses
  import C = Chunking
  import S = Session

  function Around(pages: Pages, analyse: string -> Option<string>, date: string, now: int): Env {
    Env(pages, analyse, Printer(date), now)
  }

  datatype Past = Past(before: Before, received: string, head: string, frames: seq<Frame>, dispatched: seq<string>,
                       sent: seq<string>)

  const NO_PAST := Past(NOTHING, "", "", [], [], [])

  class FrontConn {
    const parser: HttpParser
    var stats: Stats
    var touch: int
    var request: string           // request_
    var buffer: string            // p_buffer_
    var write: string             // p_write_
    var rSize: nat
    var wSize: nat
    var wPos: nat
    var reading: seq<ReadOp>      // operations handed to the socket
    var writing: nat
    var pushes: nat               // calls of push_to_remove
    var halt: Halt
    ghost var past: Past          // of the present client
    ghost var history: C.Trace     // of the present client, event by event

    ghost function Abs(): S.Session
      reads this, parser
    {
      S.Session(stats, reading, writing, touch, request, buffer, write, rSize, wSize, wPos, parser.headerOpts, halt,
                pushes, past.before, past.received, past.head, past.frames, past.dispatched, past.sent)
    }

    /** The history is a trace from the start of this client to now. */
    ghost predicate Valid()
      reads this, parser
    {
      C.IsTrace(history) && C.LastOf(history) == Abs()
    }

    /** What a connection that goes on keeps: cursors at rest, one read at most, one while
        working, and that inside the buffer; whole replies only; the bytes received since the
        place in the stream was last lost begin with the requests served since then; all
        requests served have been well formed, and exactly their bodies analysed; and the
        writes are the replies due. */
    ghost predicate Kept()
      reads this
    {
      && wSize == wPos == 0
      && |reading| <= 1 && (stats.Working? ==> |reading| == 1)
      && (|reading| == 1 && reading[0].BodyRead? ==> reading[0].at + reading[0].size < |buffer|)
      && (forall i :: 0 <= i < |past.sent| ==> C.IsReply(past.sent[i]))
      && Flatten(past.frames) <= past.received
      && AllOk(Http(), past.before.frames + past.frames)
      && past.dispatched == Bodies(Http(), past.before.frames + past.frames)
      && |history.states| == |history.envs| + 1 == |history.events| + 1
      && past.sent == Due(history, |history.events|)
    }

    lemma KeptWhileGoing()
      requires Valid() && halt.Going?
      ensures Kept()
    {
      var k := |history.states| - 1;
      C.CursorsRest(history, k);
      C.DispatchesTheStream(history, k);
      RepliesAreDue(history, k);
      hide C.IsTrace, C.IsReply, Http;
    }

    constructor (now: int)
      ensures fresh(parser) && stats.Pending? && touch == now && rSize == wSize == wPos == 0 && request == ""
      ensures buffer == write == Zeros(BUFFER_SIZE) && parser.headerOpts == map[]
      ensures reading == [] && writing == 0 && pushes == 0 && halt.Going?
      ensures past == NO_PAST
    {
      parser := new HttpParser();
      stats, touch, rSize, wSize, wPos, request := Pending, now, 0, 0, 0, "";
      buffer, write := Zeros(BUFFER_SIZE), Zeros(BUFFER_SIZE);
      reading, writing, pushes, halt := [], 0, 0, Going;
      past := NO_PAST;
    }

    // ---- issuing operations ----

    method Start(now: int)
      modifies this
      ensures Abs() == S.Start(old(Abs()), now)
    {
      stats := Working;
      rSize, wSize, wPos := 0, 0, 0;
      DoReadHead(now);
    }

    method DoReadHead(now: int)
      modifies this
      ensures Abs() == S.DoReadHead(old(Abs()), now)
    {
      if !stats.Working? { return; }
      touch := now;
      reading := reading + [HeadRead];
    }

    method DoReadBody(now: int)
      requires rSize <= Length(parser.headerOpts)
      modifies this
      ensures Abs() == S.DoReadBody(old(Abs()), now)
    {
      if !stats.Working? { return; }
      touch := now;
      var option := parser.RequestOption(CONTENT_LENGTH);
      var len := Atoi(option);
      reading := reading + [BodyRead(rSize, len - rSize)];
    }

    method DoWrite(now: int)
      modifies this
      ensures Abs() == S.DoWrite(old(Abs()), now)
    {
      if !stats.Working? { return; }
      if wSize == 0 || !(wPos < wSize) {
        halt := WriteAssertion;
      } else if wSize > |write| {
        halt := OutOfBounds;
      } else {
        touch := now;
        writing := writing + 1;
        past := past.(sent := past.sent + [write[wPos..wSize]]);
      }
    }

    method WriteReturn(now: int)
      modifies this
      ensures Abs() == Answer(old(Abs()), now)
    {
      DoWrite(now);
      Start(now);
    }

    method FillForHttp(str: string, status: string, date: string, ghost line: string, ghost env: Env)
      requires status == line + CRLF && env.printer == Printer(date)
      modifies this
      ensures Abs() == Fill(old(Abs()), str, line, env)
    {
      var enc := ReplyGenerate(str, status, date, line);
      if |enc| + 1 > |write| {
        write := Resized(write, |enc| + 1);
      }
      write := Overwrite(write, 0, enc + "\0");
      wSize := |enc|;
      wPos := 0;
    }

    /** fill_for_http, do_write and start. */
    method Respond(str: string, status: string, date: string, now: int, ghost line: string, ghost env: Env)
      requires status == line + CRLF && env.printer == Printer(date) && env.now == now
      modifies this
      ensures Abs() == Answer(Fill(old(Abs()), str, line, env), now)
    {
      FillForHttp(str, status, date, line, env);
      WriteReturn(now);
    }

    method NotifyConnError()
      modifies this
      ensures Abs() == NotifyError(old(Abs()))
    {
      rSize := 0;
      wSize := 0;
      stats := Error;
      pushes := pushes + 1;
    }

    // ---- the handlers ----

    method ReadHeadHandler(ec: Ec, bytes: nat, pages: Pages, analyse: string -> Option<string>, date: string, now: int)
      requires bytes <= |request|
      modifies this, parser
      ensures Abs() == S.ReadHeadHandler(old(Abs()), ec, bytes, Around(pages, analyse, date, now))
    {
      hide Route, Answer, Fill, NotifyError, Dropped;
      if ec.Success? && bytes > 0 {
        var text := CStr(request);
        past := past.(head := request[..bytes]);
        request := request[bytes..];
        var ok := parser.ParseRequest(Some(text));
        if ok {
          Routed(pages, analyse, date, now);
          return;
        }
      } else if !ec.Aborted? {
        NotifyConnError();
        return;
      }
      ErrorReturn(pages, date, now, Around(pages, analyse, date, now));
    }

    /** error_return: what has been read is dropped. */
    method ErrorReturn(pages: Pages, date: string, now: int, ghost env: Env)
      requires env.printer == Printer(date) && env.now == now && env.pages == pages
      modifies this
      ensures Abs() == Answer(Fill(Dropped(old(Abs())), pages.error, SERVER_ERROR, env), now)
    {
      hide Answer;
      FillForHttp(pages.error, SERVER_ERROR + CRLF, date, SERVER_ERROR, env);
      request := "";
      rSize := 0;
      Unplace();
      WriteReturn(now);
    }

    method Routed(pages: Pages, analyse: string -> Option<string>, date: string, now: int)
      modifies this
      ensures Abs() == Route(old(Abs()), Around(pages, analyse, date, now))
    {
      hide S.TakeBody, Answer, Fill, Served;
      ghost var env := Around(pages, analyse, date, now);
      var verb := parser.RequestOption(REQUEST_METHOD);
      if !IEquals(verb, POST) {
        Serve("");
        Respond(pages.badRequest, BAD_REQUEST + CRLF, date, now, BAD_REQUEST, env);
        return;
      }
      var uri := parser.RequestOption(REQUEST_URI);
      if IEquals(uri, AILAW) || IEquals(uri, ANALYSE) || IEquals(uri, ITEM) {
        TakeBody(pages, analyse, date, now);
      } else {
        Serve("");
        Respond(pages.notFound, NOT_FOUND + CRLF, date, now, NOT_FOUND, env);
      }
    }

    ghost method Unplace()
      modifies this
      ensures Abs() == Unplaced(old(Abs()))
    {
      past := past.(before := Before(past.before.bytes + past.received, past.before.frames + past.frames),
                    received := "", frames := []);
    }

    ghost method Serve(body: string)
      modifies this
      ensures Abs() == Served(old(Abs()), body)
    {
      past := past.(frames := past.frames + [Frame(past.head, body)]);
    }

    method TakeBody(pages: Pages, analyse: string -> Option<string>, date: string, now: int)
      modifies this
      ensures Abs() == S.TakeBody(old(Abs()), Around(pages, analyse, date, now))
    {
      var option := parser.RequestOption(CONTENT_LENGTH);
      var len, additional := Atoi(option), |request|;
      if len < 0 {
        halt := NegativeLength;
        return;
      }
      if additional > len {
        rSize := 0;
        halt := TooManyBytes;
        return;
      }
      MoveBody(len);
      if additional < len {
        rSize := additional;
        DoReadBody(now);
      } else {
        ReadBodyHandler(Success, additional, pages, analyse, date, now);
      }
    }

    method MoveBody(len: nat)
      requires len == Length(parser.headerOpts) && |request| <= len
      modifies this
      ensures Abs() == Moved(old(Abs()))
    {
      hide Stored, Length;
      var room := Room(buffer, request, len);
      buffer, request, rSize := room, "", 0;
    }

    static method Room(buffer: string, additional: string, len: nat) returns (room: string)
      requires |additional| <= len
      ensures room == Stored(buffer, additional, len)
    {
      room := buffer;
      if len + 1 > |room| {
        room := Resized(room, len + 256);
      }
      if additional != "" {
        room := Overwrite(room, 0, additional + "\0");
      }
    }

    method ReadBodyHandler(ec: Ec, bytes: nat, pages: Pages, analyse: string -> Option<string>, date: string, now: int)
      modifies this
      ensures Abs() == S.ReadBodyHandler(old(Abs()), ec, bytes, Around(pages, analyse, date, now))
    {
      hide Complete, S.DoReadBody, Answer, Fill, NotifyError;
      ghost var env := Around(pages, analyse, date, now);
      if ec.Success? && bytes > 0 {
        var option := parser.RequestOption(CONTENT_LENGTH);
        rSize := rSize + bytes;
        if rSize < Atoi(option) {
          DoReadBody(now);
        } else {
          BodyComplete(pages, analyse, date, now);
        }
      } else if !ec.Aborted? {
        NotifyConnError();
      } else {
        Unplace();
        Respond(pages.error, SERVER_ERROR + CRLF, date, now, SERVER_ERROR, env);
      }
    }

    method BodyComplete(pages: Pages, analyse: string -> Option<string>, date: string, now: int)
      modifies this
      ensures Abs() == Complete(old(Abs()), Around(pages, analyse, date, now))
    {
      hide Answer, Fill, Served;
      ghost var env := Around(pages, analyse, date, now);
      if rSize > |buffer| {
        halt := OutOfBounds;
        return;
      }
      Serve(buffer[..rSize]);
      var uri := parser.RequestOption(REQUEST_URI);
      if !IEquals(uri, ANALYSE) {
        Respond(pages.notFound, NOT_FOUND + CRLF, date, now, NOT_FOUND, env);
        return;
      }
      past := past.(dispatched := past.dispatched + [buffer[..rSize]]);
      match analyse(buffer[..rSize])
      case Some(text) => Respond(text, OK + CRLF, date, now, OK, env);
      case None => Respond(pages.error, SERVER_ERROR + CRLF, date, now, SERVER_ERROR, env);
    }

    method WriteHandler(ec: Ec, bytes: nat, now: int)
      modifies this
      ensures Abs() == S.WriteHandler(old(Abs()), ec, bytes, now)
    {
      if ec.Success? && bytes > 0 {
        wPos := wPos + bytes;
        if wPos < wSize {
          DoWrite(now);
        } else {
          wPos, wSize := 0, 0;
        }
      } else if !ec.Aborted? {
        NotifyConnError();
      }
    }

    method OnHead(data: string, pages: Pages, analyse: string -> Option<string>, date: string, now: int)
      requires Possible(Abs(), HeadArrives(data))
      modifies this, parser
      ensures Abs() == After(old(Abs()), HeadArrives(data), Around(pages, analyse, date, now))
    {
      hide S.ReadHeadHandler;
      var n := Find(request + data, BLANK_LINE) + 4;
      Receive(data);
      ReadHeadHandler(Success, n, pages, analyse, date, now);
    }

    method Receive(data: string)
      modifies this
      ensures Abs() == old(Abs()).(reading := [], request := old(request) + data, received := old(past).received + data)
    {
      reading, request, past := [], request + data, past.(received := past.received + data);
    }

    method OnBody(chunk: string, pages: Pages, analyse: string -> Option<string>, date: string, now: int)
      requires Possible(Abs(), BodyArrives(chunk))
      modifies this
      ensures Abs() == After(old(Abs()), BodyArrives(chunk), Around(pages, analyse, date, now))
    {
      hide S.ReadBodyHandler;
      var at := reading[0].at;
      if at + |chunk| > |buffer| {
        halt := OutOfBounds;
      } else {
        reading, buffer, past := [], Overwrite(buffer, at, chunk), past.(received := past.received + chunk);
        ReadBodyHandler(Success, |chunk|, pages, analyse, date, now);
      }
    }

    /** The socket completes an operation, or the wheel marks the connection: the trace
        goes on by this event, the assertion on additional bytes fails exactly at a head that
        comes with more than its body, the model stops at one that announces a negative
        length, and otherwise the object keeps what it keeps. */
    method On(e: Event, pages: Pages, analyse: string -> Option<string>, date: string, now: int)
      requires Valid() && Possible(Abs(), e)
      modifies this, parser
      ensures Valid() && history == C.Extended(old(history), e, Around(pages, analyse, date, now))
      ensures halt == if e.HeadArrives? then HeadHalt(old(request) + e.data) else Going
      ensures pushes == old(pushes) + if Fails(old(Abs()), e) then 1 else 0
      ensures Fails(old(Abs()), e) ==> stats.Error?
      ensures halt.Going? ==> Kept()
    {
      assert |history.states| > 0;
      hide C.IsTrace, C.Extended, After, Possible, HeadHalt, Kept, Fails;
      ghost var before, s, env := history, Abs(), Around(pages, analyse, date, now);
      Handle(e, pages, analyse, date, now);
      Prints(date, env);
      C.ExtendedIsTrace(before, e, env);
      history := C.Extended(before, e, env);
      Stopped(before, s, e, Abs(), env);
      if halt.Going? { KeptWhileGoing(); }
    }

    static lemma Prints(date: string, env: Env)
      requires env.printer == Printer(date)
      ensures C.PrintsReplies(env)
    {
    }

    static lemma Stopped(before: C.Trace, s: Session, e: Event, t: Session, env: Env)
      requires C.IsTrace(before) && s == C.LastOf(before) && Possible(s, e) && C.PrintsReplies(env) && t == After(s, e, env)
      ensures t.halt == if e.HeadArrives? then HeadHalt(s.request + e.data) else Going
      ensures t.pushes == s.pushes + (if Fails(s, e) then 1 else 0) && (Fails(s, e) ==> t.stats.Error?)
    {
      hide After, Fails, C.PrintsReplies;
      C.TraceSound(before, |before.states| - 1);
      C.RepliesPrinted(env);
      SoundStep(s, e, env, C.AllReplies());
      PushesExactly(s, e, env, C.AllReplies());
    }

    method Handle(e: Event, pages: Pages, analyse: string -> Option<string>, date: string, now: int)
      requires Possible(Abs(), e)
      modifies this, parser
      ensures Abs() == After(old(Abs()), e, Around(pages, analyse, date, now))
    {
      hide S.ReadHeadHandler, S.ReadBodyHandler, S.WriteHandler;
      match e
      case HeadArrives(data) => OnHead(data, pages, analyse, date, now);
      case BodyArrives(chunk) => OnBody(chunk, pages, analyse, date, now);
      case ReadFails(ec) =>
        var op := reading[0];
        reading := [];
        if op.HeadRead? {
          ReadHeadHandler(ec, 0, pages, analyse, date, now);
        } else {
          ReadBodyHandler(ec, 0, pages, analyse, date, now);
        }
      case WriteEnds(ec, bytes) =>
        writing := writing - 1;
        WriteHandler(ec, bytes, now);
      case Evicted =>
        stats := Error;
    }

    // ---- recycling ----

    /** conn_wash_white, with its assertion. */
    method ConnWashWhite()
      requires !stats.Working?
      modifies this
      ensures Abs() == Washed(old(Abs()))
    {
      rSize, wSize, wPos := 0, 0, 0;
      buffer := Resized(buffer, BUFFER_SIZE);
      write := Resized(write, BUFFER_SIZE);
      stats := Pending;
    }

    /** conn_reset_network: another client, another history. */
    method ConnResetNetwork(now: int)
      modifies this
      ensures Abs() == Renewed(old(Abs()), now)
    {
      request := "";
      touch := now;
      past := NO_PAST;
    }

    /** What accept_handler does to a new object. */
    method Opened(now: int)
      requires stats.Pending? && reading == [] && halt.Going? && request == "" && past == NO_PAST
      modifies this
      ensures Valid() && Fresh(Abs()) && history == C.Trace([Abs()], [], []) && Abs() == S.Start(old(Abs()), now)
    {
      Start(now);
      history := C.Trace([Abs()], [], []);
    }

    /** What manage_thread and accept_handler do to an object without outstanding reads: to
        its next client it is as good as new, whatever the former one left behind. */
    method Reused(washed: int, started: int)
      requires !stats.Working? && reading == [] && halt.Going?
      modifies this
      ensures Valid() && Fresh(Abs()) && touch == started && history == C.Trace([Abs()], [], [])
      ensures |buffer| == |write| == BUFFER_SIZE && writing == old(writing) && pushes == old(pushes)
    {
      ConnWashWhite();
      ConnResetNetwork(washed);
      Opened(started);
    }
  }
}
