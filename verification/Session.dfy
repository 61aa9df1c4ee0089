/** One connection between its handlers: the functions that say what each handler of
    front_conn does to the buffers, the cursors and the outstanding operations. */
module Session {
  import opened Text
  import opened Headers
  import opened Replies
  import opened Lifecycle
  import opened ClientOps

  const CONTENT_LENGTH := "Content-Length"
  const POST := "POST"
  const AILAW := "/ailaw"
  const ANALYSE := "/analyse"
  const ITEM := "/item"

  /** The fixed pages of http_proto. */
  datatype Pages = Pages(error: string, badRequest: string, notFound: string)

  /** What surrounds one handler: what analyse_handler makes of a body at that moment, the
      printer of replies from their content and status line, and the clock. */
  datatype Env = Env(pages: Pages, analyse: string -> Option<string>, printer: (string, string) -> string, now: int)

  /** reply_generate with the date of the moment. */
  function Printer(date: string): (string, string) -> string {
    (content, line) => Reply(content, line, date)
  }

  datatype Ec = Success | Aborted | OtherError

  /** An outstanding read: up to the blank line, or into a stretch of p_buffer_. */
  datatype ReadOp = HeadRead | BodyRead(at: nat, size: nat)

  /** Why a connection cannot go on: the assertion of read_head_handler on the bytes read
      too many, a negative Content-Length, an assertion of do_write, or an access outside
      a buffer. */
  datatype Halt = Going | TooManyBytes | NegativeLength | WriteAssertion | OutOfBounds

  /** A request as it came off the wire. */
  datatype Frame = Frame(head: string, body: string)

  datatype Session = Session(
    stats: Stats, reading: seq<ReadOp>, writing: nat, touch: int,
    request: string, buffer: string, write: string,
    rSize: nat, wSize: nat, wPos: nat,
    opts: Options,
    halt: Halt,
    pushes: nat,                // calls of push_to_remove
    // history
    before: Before,             // up to where the place in the stream was last lost
    received: string,           // the bytes delivered since then
    head: string,               // the last head consumed
    frames: seq<Frame>,         // the requests served since then
    dispatched: seq<string>,    // the bodies given to analyse_handler
    sent: seq<string>)          // the writes issued

  /** The bytes delivered and the requests served before bytes of unknown extent were thrown
      away. */
  datatype Before = Before(bytes: string, frames: seq<Frame>)

  const NOTHING := Before("", [])

  function AllReceived(s: Session): string { s.before.bytes + s.received }

  function AllFrames(s: Session): seq<Frame> { s.before.frames + s.frames }

  function LifeOf(s: Session): Life {
    Life(s.stats, |s.reading|, s.writing, s.touch)
  }

  // ---- what a head asks for ----

  ghost function Length(opts: Options): int { Atoi(Lookup(opts, CONTENT_LENGTH)) }

  ghost predicate UriIs(opts: Options, uri: string) { IEquals(Lookup(opts, REQUEST_URI), uri) }

  ghost predicate IsPost(opts: Options) { IEquals(Lookup(opts, REQUEST_METHOD), POST) }

  ghost predicate TakesBody(opts: Options) {
    IsPost(opts) && (UriIs(opts, AILAW) || UriIs(opts, ANALYSE) || UriIs(opts, ITEM))
  }

  // ---- issuing operations ----

  function DoReadHead(s: Session, now: int): Session {
    if s.stats.Working? then s.(touch := now, reading := s.reading + [HeadRead]) else s
  }

  ghost function DoReadBody(s: Session, now: int): Session
    requires s.rSize <= Length(s.opts)
  {
    if s.stats.Working? then s.(touch := now, reading := s.reading + [BodyRead(s.rSize, Length(s.opts) - s.rSize)]) else s
  }

  function DoWrite(s: Session, now: int): Session {
    if !s.stats.Working? then s
    else if !(s.wPos < s.wSize) then s.(halt := WriteAssertion)
    else if s.wSize > |s.write| then s.(halt := OutOfBounds)
    else s.(touch := now, writing := s.writing + 1, sent := s.sent + [s.write[s.wPos..s.wSize]])
  }

  function Start(s: Session, now: int): Session {
    DoReadHead(s.(stats := Working, rSize := 0, wSize := 0, wPos := 0), now)
  }

  // write_return: the reply, then the next head.
  function Answer(s: Session, now: int): Session {
    Start(DoWrite(s, now), now)
  }

  /** fill_for_http. */
  function Fill(s: Session, content: string, line: string, env: Env): Session {
    var enc := env.printer(content, line);
    var room := if |enc| + 1 > |s.write| then Resized(s.write, |enc| + 1) else s.write;
    s.(write := Overwrite(room, 0, enc + "\0"), wSize := |enc|, wPos := 0)
  }

  function NotifyError(s: Session): Session {
    s.(rSize := 0, wSize := 0, stats := Error, pushes := s.pushes + 1)
  }

  // History: the place in the stream is lost, and what comes next begins a new stream.
  function Unplaced(s: Session): Session {
    s.(before := Before(AllReceived(s), AllFrames(s)), received := "", frames := [])
  }

  /** error_return of read_head_handler, up to the reply: what has been read is dropped. */
  function Dropped(s: Session): Session {
    Unplaced(s).(request := "", rSize := 0)
  }

  // ---- the handlers; the completed operation is no longer outstanding ----

  ghost function ReadHeadHandler(s: Session, ec: Ec, bytes: nat, env: Env): Session
    requires bytes <= |s.request|
  {
    if ec.Success? && bytes > 0 then
      var text := CStr(s.request);
      var c := s.(request := s.request[bytes..], head := s.request[..bytes]);
      if Fields(text).None? then
        Answer(Fill(Dropped(c), env.pages.error, SERVER_ERROR, env), env.now)
      else Route(c.(opts := Parsed(Fields(text).value)), env)
    else if ec.Aborted? then
      Answer(Fill(Dropped(s), env.pages.error, SERVER_ERROR, env), env.now)
    else NotifyError(s)
  }

  /** A head has been parsed: refuse it, or go for its body. */
  ghost function Route(s: Session, env: Env): Session {
    if !IsPost(s.opts) then Answer(Fill(Served(s, ""), env.pages.badRequest, BAD_REQUEST, env), env.now)
    else if !TakesBody(s.opts) then Answer(Fill(Served(s, ""), env.pages.notFound, NOT_FOUND, env), env.now)
    else TakeBody(s, env)
  }

  // History: the request that ends here.
  function Served(s: Session, body: string): Session {
    s.(frames := s.frames + [Frame(s.head, body)])
  }

  /** The buffer with room for len bytes and a NUL, and `extra` in front. */
  function Stored(buffer: string, extra: string, len: nat): (r: string)
    requires |extra| <= len
    ensures |r| > len && r[..|extra|] == extra
  {
    var room := if len + 1 > |buffer| then Resized(buffer, len + 256) else buffer;
    if extra == "" then room else
    assert (extra + "\0")[..|extra|] == extra;
    var r := Overwrite(room, 0, extra + "\0");
    assert r[..|extra|] == r[..|extra| + 1][..|extra|];
    r
  }

  /** What came along with the head is moved to p_buffer_, with its terminating NUL. */
  ghost function Moved(s: Session): Session
    requires |s.request| <= Length(s.opts)
  {
    s.(rSize := 0, request := "", buffer := Stored(s.buffer, s.request, Length(s.opts)))
  }

  /** The head wants a body: go on with the bytes that came along, read the others. */
  ghost function TakeBody(s: Session, env: Env): Session {
    var len, extra := Length(s.opts), |s.request|;
    if len < 0 then s.(halt := NegativeLength)
    else if extra > len then s.(rSize := 0, halt := TooManyBytes)
    else if extra < len then DoReadBody(Moved(s).(rSize := extra), env.now)
    else ReadBodyHandler(Moved(s), Success, extra, env)
  }

  ghost function ReadBodyHandler(s: Session, ec: Ec, bytes: nat, env: Env): Session {
    if ec.Success? && bytes > 0 then
      var r := s.(rSize := s.rSize + bytes);
      if r.rSize < Length(r.opts) then DoReadBody(r, env.now) else Complete(r, env)
    else if ec.Aborted? then Answer(Fill(Unplaced(s), env.pages.error, SERVER_ERROR, env), env.now)
    else NotifyError(s)
  }

  /** The body is there: analyse it, or answer that there is nothing of that name. */
  ghost function Complete(r: Session, env: Env): Session {
    if r.rSize > |r.buffer| then r.(halt := OutOfBounds) else
    var done := Served(r, r.buffer[..r.rSize]);
    if !UriIs(r.opts, ANALYSE) then Answer(Fill(done, env.pages.notFound, NOT_FOUND, env), env.now)
    else
      var asked := done.(dispatched := done.dispatched + [r.buffer[..r.rSize]]);
      var (content, line) := Analysis(env, r.buffer[..r.rSize]);
      Answer(Fill(asked, content, line, env), env.now)
  }

  /** The content and the status line of the reply to a body that is analysed. */
  function Analysis(env: Env, body: string): (string, string) {
    match env.analyse(body)
    case Some(text) => (text, OK)
    case None => (env.pages.error, SERVER_ERROR)
  }

  function WriteHandler(s: Session, ec: Ec, bytes: nat, now: int): Session {
    if ec.Success? && bytes > 0 then
      var w := s.(wPos := s.wPos + bytes);
      if w.wPos < w.wSize then DoWrite(w, now) else w.(wPos := 0, wSize := 0)
    else if ec.Aborted? then s
    else NotifyError(s)
  }

  // ---- recycling ----

  const BUFFER_SIZE := 16 * 1024

  /** conn_wash_white. */
  function Washed(s: Session): Session {
    s.(stats := Pending, rSize := 0, wSize := 0, wPos := 0,
       buffer := Resized(s.buffer, BUFFER_SIZE), write := Resized(s.write, BUFFER_SIZE))
  }

  /** conn_reset_network: another client, another history. */
  function Renewed(s: Session, now: int): Session {
    s.(request := "", touch := now, before := NOTHING, received := "", head := "", frames := [], dispatched := [], sent := [])
  }

  // ---- events ----

  /** What may happen to a connection: the socket delivers, an operation fails, a write
      ends, or the wheel marks the connection. */
  datatype Event =
    | HeadArrives(data: string)
    | BodyArrives(chunk: string)
    | ReadFails(ec: Ec)
    | WriteEnds(wec: Ec, bytes: nat)
    | Evicted

  predicate Possible(s: Session, e: Event) {
    s.halt.Going? &&
    match e
    case HeadArrives(data) => s.reading == [HeadRead] && Find(s.request + data, BLANK_LINE) >= 0
    case BodyArrives(chunk) => |s.reading| == 1 && s.reading[0].BodyRead? && 0 < |chunk| <= s.reading[0].size
    case ReadFails(ec) => |s.reading| == 1 && !ec.Success?
    case WriteEnds(_, _) => s.writing > 0
    case Evicted => !s.stats.Pending?
  }

  ghost function After(s: Session, e: Event, env: Env): Session
    requires Possible(s, e)
  {
    match e
    case HeadArrives(data) =>
      var text := s.request + data;
      ReadHeadHandler(s.(reading := [], request := text, received := s.received + data), Success,
                      Find(text, BLANK_LINE) + 4, env)
    case BodyArrives(chunk) =>
      if s.reading[0].at + |chunk| > |s.buffer| then s.(halt := OutOfBounds) else
      ReadBodyHandler(s.(reading := [], buffer := Overwrite(s.buffer, s.reading[0].at, chunk),
                         received := s.received + chunk), Success, |chunk|, env)
    case ReadFails(ec) =>
      if s.reading[0].HeadRead? then ReadHeadHandler(s.(reading := []), ec, 0, env)
      else ReadBodyHandler(s.(reading := []), ec, 0, env)
    case WriteEnds(ec, bytes) => WriteHandler(s.(writing := s.writing - 1), ec, bytes, env.now)
    case Evicted => s.(stats := Error)
  }

  /** The events that lose the place in the stream: a head with a NUL before its blank line,
      and a cancelled read. */
  ghost predicate Loses(s: Session, e: Event) {
    match e
    case HeadArrives(data) =>
      var text := s.request + data;
      Find(text, BLANK_LINE) >= 0 && !NulFree(text[..Find(text, BLANK_LINE) + 4])
    case ReadFails(ec) => ec.Aborted?
    case _ => false
  }

  /** A connection object just started by accept_handler. */
  ghost predicate Fresh(s: Session) {
    && s.stats.Working? && s.reading == [HeadRead] && s.request == "" && s.halt.Going?
    && s.rSize == s.wSize == s.wPos == 0
    && s.before == NOTHING && s.received == "" && s.frames == [] && s.dispatched == [] && s.sent == []
  }
}
